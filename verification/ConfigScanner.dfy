/** The configuration scanner as it runs: loops that move a position through the text, each proved
    equal to the definition on the rest of the text. */
module ConfigScanner {
  import opened Wrappers
  import opened Characters
  import opened ConfigText

  lemma Suffix(text: string, i: nat)
    requires i < |text|
    ensures text[i..] != [] && text[i..][0] == text[i] && text[i..][1..] == text[i + 1..]
    ensures i + 1 < |text| ==> text[i..][1] == text[i + 1] && text[i..][2..] == text[i + 2..]
  {
  }

  method SkipWhitespaceAndComments(text: string, start: nat) returns (position: nat)
    requires start <= |text|
    ensures start <= position <= |text| && text[position..] == Skip(text[start..])
  {
    hide Skip;
    position := start;
    while position < |text|
      invariant start <= position <= |text| && Skip(text[position..]) == Skip(text[start..])
      decreases |text| - position
    {
      SkipIs(text, position);
      if IsSpace(text[position]) {
        position := position + 1;
        continue;
      }
      if position + 1 >= |text| || text[position] != '-' || text[position + 1] != '-' {
        return;
      }
      position := SkipOneComment(text, position);
    }
    SkipIs(text, position);
  }

  lemma SkipIs(text: string, i: nat)
    requires i <= |text|
    ensures var s := text[i..];
      Skip(s) == if s == [] then s else if IsSpace(text[i]) then Skip(text[i + 1..])
                 else if CommentStarts(s) then Skip(SkipComment(s)) else s
    ensures CommentStarts(text[i..]) <==> i + 1 < |text| && text[i] == '-' && text[i + 1] == '-'
  {
    hide SkipComment;
    if i < |text| {
      Suffix(text, i);
    }
  }

  method SkipOneComment(text: string, start: nat) returns (position: nat)
    requires start <= |text| && CommentStarts(text[start..])
    ensures start < position <= |text| && text[position..] == SkipComment(text[start..])
  {
    hide AfterBlock, FromLineBreak;
    position := start + 2;
    assert text[start..][2..] == text[position..];
    if position + 1 < |text| && text[position] == '[' && text[position + 1] == '[' {
      assert text[start..][4..] == text[position + 2..];
      position := SkipBlock(text, position + 2);
    } else {
      position := SkipLine(text, position);
    }
  }

  method SkipBlock(text: string, start: nat) returns (position: nat)
    requires start <= |text|
    ensures start <= position <= |text| && text[position..] == AfterBlock(text[start..])
  {
    position := start;
    while position + 2 <= |text|
      invariant start <= position <= |text| && AfterBlock(text[position..]) == AfterBlock(text[start..])
      decreases |text| - position
    {
      Suffix(text, position);
      if text[position] == ']' && text[position + 1] == ']' {
        position := position + 2;
        return;
      }
      position := position + 1;
    }
    position := |text|;
  }

  method SkipLine(text: string, start: nat) returns (position: nat)
    requires start <= |text|
    ensures start <= position <= |text| && text[position..] == FromLineBreak(text[start..])
  {
    position := start;
    while position < |text| && text[position] != '\r' && text[position] != '\n'
      invariant start <= position <= |text| && FromLineBreak(text[position..]) == FromLineBreak(text[start..])
    {
      Suffix(text, position);
      position := position + 1;
    }
    if position < |text| {
      Suffix(text, position);
    }
  }

  method SkipQuotedString(text: string, start: nat) returns (ok: bool, position: nat)
    requires start <= |text|
    ensures start <= position <= |text| && Skipped(ok, text[position..]) == SkipQuoted(text[start..])
  {
    position := start;
    if position >= |text| || !IsQuote(text[position]) {
      return false, position;
    }
    var quote := text[position];
    Suffix(text, position);
    position := position + 1;
    ghost var from := position;
    while position < |text|
      invariant from <= position <= |text| && SkipBody(text[position..], quote) == SkipBody(text[from..], quote)
      decreases |text| - position
    {
      Suffix(text, position);
      if text[position] == '\\' {
        assert |text| - position < 2 ==> text[position + 1..] == [];
        position := position + if 2 < |text| - position then 2 else |text| - position;
        continue;
      }
      position := position + 1;
      if text[position - 1] == quote {
        return true, position;
      }
    }
    return false, position;
  }

  lemma ReadBodyIs(text: string, i: nat, quote: char, done: string)
    requires i <= |text|
    ensures ReadBody(text[i..], quote, done) ==
      if i == |text| then Quoted(false, done, [])
      else if text[i] == quote then Quoted(true, done, text[i + 1..])
      else if text[i] != '\\' then ReadBody(text[i + 1..], quote, done + [text[i]])
      else if i + 1 == |text| then Quoted(false, done, [])
      else ReadBody(text[i + 2..], quote, done + [Unescaped(text[i + 1])])
  {
    hide Unescaped;
    if i < |text| {
      Suffix(text, i);
    }
  }

  method ReadQuotedString(text: string, start: nat) returns (ok: bool, value: string, position: nat)
    requires start <= |text|
    ensures start <= position <= |text| && Quoted(ok, value, text[position..]) == ReadQuoted(text[start..])
  {
    hide ReadBody;
    position, value := start, [];
    if position >= |text| || !IsQuote(text[position]) {
      return false, value, position;
    }
    Suffix(text, position);
    ok, value, position := ReadQuotedBody(text, position + 1, text[position]);
  }

  method ReadQuotedBody(text: string, start: nat, quote: char) returns (ok: bool, value: string, position: nat)
    requires start <= |text|
    ensures start <= position <= |text| && Quoted(ok, value, text[position..]) == ReadBody(text[start..], quote, [])
  {
    hide ReadBody, Unescaped;
    position, value := start, [];
    while position < |text|
      invariant start <= position <= |text|
      invariant ReadBody(text[position..], quote, value) == ReadBody(text[start..], quote, [])
      decreases |text| - position
    {
      ReadBodyIs(text, position, quote, value);
      var character := text[position];
      position := position + 1;
      if character == quote {
        return true, value, position;
      }
      if character != '\\' {
        value := value + [character];
        continue;
      }
      if position >= |text| {
        return false, value, position;
      }
      value := value + [Unescaped(text[position])];
      position := position + 1;
    }
    ReadBodyIs(text, position, quote, value);
    return false, value, position;
  }

  /** The end of an identifier, not going beyond close. */
  method SkipIdentifier(text: string, start: nat, close: nat) returns (position: nat)
    requires start <= |text| && close <= |text|
    ensures start <= position <= |text| && text[start..position] == Identifier(text[start..], |text| - close)
  {
    hide IsIdentifierCharacter, Identifier;
    position := start;
    ghost var n: nat := |text| - close;
    assert text[start..start] == [];
    while position < close && IsIdentifierCharacter(text[position])
      invariant start <= position <= |text|
      invariant text[start..position] + Identifier(text[position..], n) == Identifier(text[start..], n)
    {
      IdentifierIs(text, position, n);
      assert text[start..position + 1] == text[start..position] + [text[position]];
      position := position + 1;
    }
    IdentifierIs(text, position, n);
  }

  lemma IdentifierIs(text: string, i: nat, n: nat)
    requires i <= |text|
    ensures Identifier(text[i..], n) ==
      if |text| - i <= n || i == |text| ||
        !IsIdentifierCharacter(text[i]) then [] else [text[i]] + Identifier(text[i + 1..], n)
  {
    hide IsIdentifierCharacter;
    if i < |text| {
      Suffix(text, i);
    }
  }

  method FindClosingBrace(text: string, start: nat) returns (close: Option<nat>)
    requires start <= |text|
    ensures close.None? <==> FindClose(text[start..], 1).None?
    ensures close.Some? ==> start <= close.value < |text| && FindClose(text[start..], 1) == Some(text[close.value..])
  {
    hide FindClose, SkipQuoted, Skip;
    var position := start;
    var depth: nat := 1;
    while position < |text|
      invariant start <= position <= |text| && depth > 0
      invariant FindClose(text[position..], depth) == FindClose(text[start..], 1)
      decreases |text| - position
    {
      FindCloseIs(text, position, depth);
      if text[position] == '-' && position + 1 < |text| && text[position + 1] == '-' {
        var next := SkipWhitespaceAndComments(text, position);
        CommentAdvances(text, position, next);
        position := next;
        continue;
      }
      if IsQuote(text[position]) {
        var ok, next := SkipQuotedString(text, position);
        QuoteAdvances(text, position, next);
        position := next;
        if !ok {
          return None;
        }
        continue;
      }
      if text[position] == '{' {
        depth := depth + 1;
      } else if text[position] == '}' {
        depth := depth - 1;
        if depth == 0 {
          return Some(position);
        }
      }
      position := position + 1;
    }
    FindCloseEnds(text[position..], depth);
    return None;
  }

  lemma FindCloseEnds(s: string, depth: nat)
    requires s == []
    ensures FindClose(s, depth).None?
  {
  }

  lemma FindCloseIs(text: string, i: nat, depth: nat)
    requires i < |text| && depth > 0
    ensures FindClose(text[i..], depth) ==
      if i + 1 < |text| && text[i] == '-' && text[i + 1] == '-' then FindClose(Skip(text[i..]), depth)
      else if IsQuote(text[i]) then if SkipQuoted(text[i..]).ok then FindClose(SkipQuoted(text[i..]).rest, depth)
        else None
      else if text[i] == '{' then FindClose(text[i + 1..], depth + 1)
      else if text[i] == '}' && depth == 1 then Some(text[i..])
      else FindClose(text[i + 1..], if text[i] == '}' then depth - 1 else depth)
  {
    hide SkipQuoted, SkipComment;
    Suffix(text, i);
  }

  lemma CommentAdvances(text: string, i: nat, next: nat)
    requires i + 1 < |text| && text[i] == '-' && text[i + 1] == '-' && next <= |text| && text[next..] == Skip(text[i..])
    ensures next > i
  {
    hide SkipComment;
    Suffix(text, i);
  }

  lemma QuoteAdvances(text: string, i: nat, next: nat)
    requires i < |text| && IsQuote(text[i]) && next <= |text| && text[next..] == SkipQuoted(text[i..]).rest
    ensures next > i
  {
    hide SkipBody;
  }

  /** Where the alias table opens and closes. */
  method FindAliasesTable(text: string) returns (found: bool, open: nat, close: nat)
    ensures found <==> FindTable(text).Some?
    ensures found ==> open < close < |text| && FindTable(text) == Some(Place(text[open..], text[close..]))
  {
    hide FindTable, TableBody, FindClose, SkipQuoted, Skip;
    open, close := 0, 0;
    var position := 0;
    assert text[0..] == text;
    while position < |text|
      invariant position <= |text| && FindTable(text[position..]) == FindTable(text)
      decreases |text| - position
    {
      var next := SkipWhitespaceAndComments(text, position);
      FindTableIs(text, position, next);
      position := next;
      if position >= |text| {
        return false, open, close;
      }
      if IsQuote(text[position]) {
        var _, after := SkipQuotedString(text, position);
        QuoteAdvances(text, position, after);
        position := after;
        continue;
      }
      if !IsIdentifierStart(text[position]) {
        position := position + 1;
        continue;
      }
      var end := SkipIdentifier(text, position, |text|);
      WordAdvances(text, position, end);
      var word := text[position..end];
      position := end;
      if word != "aliases" {
        continue;
      }
      var body := FindTableBody(text, position);
      if body.None? {
        continue;
      }
      open := body.value;
      Suffix(text, open);
      var closing := FindClosingBrace(text, open + 1);
      if closing.None? {
        return false, open, close;
      }
      return true, open, closing.value;
    }
    FindTableEnds(text[position..]);
    return false, open, close;
  }

  lemma FindTableEnds(s: string)
    requires s == []
    ensures FindTable(s).None?
  {
  }

  lemma FindTableIs(text: string, i: nat, j: nat)
    requires i <= j <= |text| && text[j..] == Skip(text[i..])
    ensures FindTable(text[i..]) ==
      if j >= |text| then None
      else if IsQuote(text[j]) then FindTable(SkipQuoted(text[j..]).rest)
      else if !IsIdentifierStart(text[j]) then FindTable(text[j + 1..])
      else
        var word := Identifier(text[j..], 0);
        var body := TableBody(text[j..][|word|..]);
        if word != "aliases" || body.None? then FindTable(text[j..][|word|..])
        else
          match FindClose(body.value[1..], 1)
          case None => None
          case Some(close) => Some(Place(body.value, close))
  {
    hide TableBody, FindClose, SkipQuoted, Identifier, Skip;
    if j < |text| {
      Suffix(text, j);
    }
  }

  lemma WordAdvances(text: string, i: nat, end: nat)
    requires i < |text| && IsIdentifierStart(text[i]) && i <= end <= |text| && text[i..end] == Identifier(text[i..], 0)
    ensures end > i && text[i..][|text[i..end]|..] == text[end..] && |text[i..end]| == end - i
  {
    Suffix(text, i);
  }

  method FindTableBody(text: string, start: nat) returns (open: Option<nat>)
    requires start <= |text|
    ensures open.None? <==> TableBody(text[start..]).None?
    ensures open.Some? ==> start <= open.value < |text| && TableBody(text[start..]) == Some(text[open.value..])
  {
    hide Skip;
    var position := SkipWhitespaceAndComments(text, start);
    if position >= |text| || text[position] != '=' {
      return None;
    }
    Suffix(text, position);
    position := position + 1;
    position := SkipWhitespaceAndComments(text, position);
    if position >= |text| || text[position] != '{' {
      return None;
    }
    return Some(position);
  }

  /** A key of the table; position is where the scan goes on in either case. */
  method ReadTableKey(text: string, start: nat, close: nat) returns (found: bool, key: string, position: nat)
    requires start < close <= |text|
    ensures start < position <= |text|
    ensures ReadKey(text[start..], |text| - close) == if found then Key(key, text[position..])
      else NoKey(text[position..])
  {
    hide Skip, ReadQuoted, Identifier, SkipNested;
    position, key := start, [];
    Suffix(text, position);
    if IsIdentifierStart(text[position]) {
      position := SkipIdentifier(text, position + 1, close);
      key := text[start..position];
      assert key == [text[start]] + text[start + 1..position];
      assert text[start..][|key|..] == text[position..];
      return true, key, position;
    }
    if text[position] == '[' {
      position := SkipWhitespaceAndComments(text, position + 1);
      var ok;
      ok, key, position := ReadQuotedString(text, position);
      if !ok {
        if position < |text| {
          Suffix(text, position);
          position := position + 1;
        }
        return false, key, position;
      }
      position := SkipWhitespaceAndComments(text, position);
      if position >= close {
        return false, key, position;
      }
      Suffix(text, position);
      position := position + 1;
      return text[position - 1] == ']', key, position;
    }
    if text[position] == '{' {
      position := SkipNestedTable(text, position + 1, close);
      return false, key, position;
    }
    return false, key, position + 1;
  }

  method SkipNestedTable(text: string, start: nat, close: nat) returns (position: nat)
    requires start <= |text| && close <= |text|
    ensures start <= position <= |text| && text[position..] == SkipNested(text[start..], |text| - close, 1)
  {
    hide SkipQuoted;
    position := start;
    var depth: nat := 1;
    while position < close && depth > 0
      invariant start <= position <= |text|
      invariant SkipNested(text[position..], |text| - close, depth) == SkipNested(text[start..], |text| - close, 1)
      decreases |text| - position
    {
      Suffix(text, position);
      if IsQuote(text[position]) {
        var _, next := SkipQuotedString(text, position);
        QuoteAdvances(text, position, next);
        position := next;
      } else {
        if text[position] == '{' {
          depth := depth + 1;
        } else if text[position] == '}' {
          depth := depth - 1;
        }
        position := position + 1;
      }
    }
  }

  method ReadTableValue(text: string, start: nat, close: nat) returns (existing: Existing, position: nat)
    requires start <= |text| && close <= |text|
    ensures start <= position <= |text| && (existing, text[position..]) == ReadValue(text[start..], |text| - close)
  {
    hide ReadQuoted;
    position := start;
    if position < |text| {
      Suffix(text, position);
    }
    if position < |text| && IsQuote(text[position]) {
      var ok, value, next := ReadQuotedString(text, position);
      return Existing(value, ok), next;
    }
    while position < close && text[position] != ','
      invariant start <= position <= |text|
      invariant SkipValue(text[position..], |text| - close) == SkipValue(text[start..], |text| - close)
    {
      Suffix(text, position);
      position := position + 1;
    }
    if position < close {
      Suffix(text, position);
    }
    return Existing([], false), position;
  }

  /** The entry for an alias, if the table has one. The program looks at the first character of a value
      without a test for the end of the text; overrun tells whether one was looked for there, which takes
      a comment inside the table that runs to the end of the text. */
  method FindExistingAlias(text: string, open: nat, close: nat, wanted: string)
    returns (r: Option<Existing>, ghost overrun: bool)
    requires open < close <= |text|
    ensures r == FindAlias(text[open + 1..], |text| - close, wanted)
    ensures overrun <==> Overruns(text[open + 1..], |text| - close, wanted)
    ensures overrun && close < |text| && text[close] == '}' ==> CommentRunsOut(text, open, close)
  {
    hide Skip, ReadKey, ReadValue, FindAlias, Overruns, CommentRunsOut;
    overrun := false;
    var position := open + 1;
    while position < close
      invariant open + 1 <= position <= |text|
      invariant FindAlias(text[position..], |text| - close, wanted) ==
        FindAlias(text[open + 1..], |text| - close, wanted)
      invariant overrun || Overruns(text[position..], |text| - close, wanted) <==>
        Overruns(text[open + 1..], |text| - close, wanted)
      invariant overrun && close < |text| && text[close] == '}' ==> CommentRunsOut(text, open, close)
      decreases |text| - position
    {
      var next := SkipWhitespaceAndComments(text, position);
      FindAliasIs(text, position, next, close, wanted);
      OverrunsIs(text, position, next, close, wanted);
      position := next;
      if position >= close {
        break;
      }
      var found, key, after := ReadTableKey(text, position, close);
      position := after;
      if !found {
        continue;
      }
      position := SkipWhitespaceAndComments(text, position);
      if position >= close {
        break;
      }
      Suffix(text, position);
      position := position + 1;
      if text[position - 1] != '=' {
        continue;
      }
      var value := SkipWhitespaceAndComments(text, position);
      RunsOut(text, open, position, close);
      overrun := overrun || value == |text|;
      var existing;
      existing, position := ReadTableValue(text, value, close);
      if key == wanted {
        return Some(existing), overrun;
      }
    }
    FindAliasEnds(text[position..], |text| - close, wanted);
    return None, overrun;
  }

  ghost predicate CommentRunsOut(text: string, open: nat, close: nat) {
    exists k :: open < k < close && k < |text| && CommentStarts(text[k..]) && Skip(text[k..]) == []
  }

  lemma RunsOut(text: string, open: nat, i: nat, close: nat)
    requires open < i <= close <= |text|
    ensures close < |text| && text[close] == '}' && Skip(text[i..]) == [] ==> CommentRunsOut(text, open, close)
  {
    hide Skip;
    if close < |text| && text[close] == '}' && Skip(text[i..]) == [] {
      var k := SkippedToEnd(text, i, close);
    }
  }

  /** White space and comments that end the text: a comment begins before any other character. */
  lemma {:induction false} SkippedToEnd(text: string, i: nat, close: nat) returns (k: nat)
    requires i <= close < |text| && text[close] == '}' && Skip(text[i..]) == []
    ensures i <= k < close && CommentStarts(text[k..]) && Skip(text[k..]) == []
    decreases close - i
  {
    hide SkipComment;
    Suffix(text, i);
    if IsSpace(text[i]) {
      k := SkippedToEnd(text, i + 1, close);
    } else {
      k := i;
    }
  }

  lemma OverrunsIs(text: string, i: nat, j: nat, close: nat, wanted: string)
    requires i < close <= |text| && i <= j <= |text| && text[j..] == Skip(text[i..])
    ensures var n := |text| - close;
      Overruns(text[i..], n, wanted) <==>
      j < close &&
      match ReadKey(text[j..], n)
      case NoKey(rest) => Overruns(rest, n, wanted)
      case Key(key, rest) =>
        var u := Skip(rest);
        |u| > n &&
        if u[0] != '=' then Overruns(u[1..], n, wanted)
        else
          var value := Skip(u[1..]);
          value == [] || (key != wanted && Overruns(ReadValue(value, n).1, n, wanted))
    ensures j >= close ==> !Overruns(text[j..], |text| - close, wanted)
  {
    hide ReadKey, ReadValue;
    SkipTwice(text[i..]);
    hide Skip;
  }

  lemma {:induction false} SkipTwice(s: string)
    ensures Skip(Skip(s)) == Skip(s)
    decreases |s|
  {
    hide SkipComment;
    if s == [] {
    } else if IsSpace(s[0]) {
      SkipTwice(s[1..]);
    } else if CommentStarts(s) {
      SkipTwice(SkipComment(s));
    }
  }

  lemma FindAliasEnds(s: string, n: nat, wanted: string)
    requires |s| <= n
    ensures FindAlias(s, n, wanted).None? && !Overruns(s, n, wanted)
  {
    hide ReadKey, ReadValue;
  }

  lemma FindAliasIs(text: string, i: nat, j: nat, close: nat, wanted: string)
    requires i < close <= |text| && i <= j <= |text| && text[j..] == Skip(text[i..])
    ensures var n := |text| - close;
      FindAlias(text[i..], n, wanted) ==
      if j >= close then None
      else
        match ReadKey(text[j..], n)
        case NoKey(rest) => FindAlias(rest, n, wanted)
        case Key(key, rest) =>
          var u := Skip(rest);
          if |u| <= n then FindAlias(u, n, wanted)
          else if u[0] != '=' then FindAlias(u[1..], n, wanted)
          else
            var v := ReadValue(Skip(u[1..]), n);
            if key == wanted then Some(v.0) else FindAlias(v.1, n, wanted)
    ensures j >= close ==> FindAlias(text[j..], |text| - close, wanted).None?
  {
    hide Skip, ReadKey, ReadValue;
  }

  // ----- updating -----

  method EscapeLuaString(value: string) returns (escaped: string)
    ensures escaped == Escape(value)
  {
    escaped := [];
    for i := 0 to |value|
      invariant escaped == Escape(value[..i])
    {
      assert value[..i + 1][..i] == value[..i];
      if value[i] == '\\' || value[i] == '"' {
        escaped := escaped + "\\";
      }
      escaped := escaped + [value[i]];
    }
    assert value[..|value|] == value;
  }

  method AppendEntry(content: string, a: Alias) returns (r: string)
    ensures r == content + Entry(a)
  {
    hide Escape;
    var name := EscapeLuaString(a.name);
    var path := EscapeLuaString(a.path);
    r := content + ("[\"" + name + "\"] = \"" + path + "\",");
  }

  method AppendLines(indent: string, newline: string, aliases: seq<Alias>) returns (generated: string)
    ensures generated == Lines(indent, newline, aliases)
  {
    hide Entry;
    generated := [];
    for i := 0 to |aliases|
      invariant generated == Lines(indent, newline, aliases[..i])
    {
      assert aliases[..i + 1][..i] == aliases[..i];
      ghost var before := generated;
      generated := AppendEntry(generated + indent, aliases[i]);
      generated := generated + newline;
      assert generated == before + (indent + Entry(aliases[i]) + newline);
    }
    assert aliases[..|aliases|] == aliases;
  }

  method AppendOneLine(aliases: seq<Alias>) returns (generated: string)
    ensures generated == OneLine(aliases)
  {
    hide Entry;
    generated := [];
    for i := 0 to |aliases|
      invariant generated == OneLine(aliases[..i])
    {
      assert aliases[..i + 1][..i] == aliases[..i];
      ghost var before := generated;
      generated := AppendEntry(generated, aliases[i]);
      generated := generated + " ";
      assert generated == before + (Entry(aliases[i]) + " ");
    }
    assert aliases[..|aliases|] == aliases;
  }

  /** Sorts the aliases into those to add and those that are there already; stops nothing on an error,
      so that every one is reported. */
  method CollectAdditions(safePath: string -> bool, text: string, open: nat, close: nat, aliases: seq<Alias>)
    returns (valid: bool, additions: seq<Alias>)
    requires open < close < |text|
    ensures var place := Place(text[open..], text[close..]);
      valid == Acceptable(safePath, place, aliases) && additions == Additions(safePath, place, aliases)
  {
    hide CheckAlias;
    valid, additions := true, [];
    ghost var place := Place(text[open..], text[close..]);
    for i := 0 to |aliases|
      invariant valid == Acceptable(safePath, place, aliases[..i])
      invariant additions == Additions(safePath, place, aliases[..i])
    {
      assert aliases[..i + 1][..i] == aliases[..i];
      assert aliases[..i + 1] == aliases[..i] + [aliases[i]];
      var check := CheckOne(safePath, text, open, close, aliases[i]);
      if check.Unsafe? || check.Conflict? {
        valid := false;
      } else if check.New? {
        additions := additions + [aliases[i]];
      }
    }
    assert aliases[..|aliases|] == aliases;
  }

  method CheckOne(safePath: string -> bool, text: string, open: nat, close: nat, a: Alias) returns (r: Check)
    requires open < close < |text|
    ensures r == CheckAlias(safePath, Place(text[open..], text[close..]), a)
  {
    hide FindAlias;
    if !IsSafeName(a.name) || !safePath(a.path) {
      return Unsafe;
    }
    assert text[open..][1..] == text[open + 1..];
    var existing, _ := FindExistingAlias(text, open, close, a.name);
    if existing.Some? {
      return if existing.value.isString && existing.value.value == a.path then Present else Conflict;
    }
    return New;
  }

  method UpdateConfigAliases(safePath: string -> bool, text: string, aliases: seq<Alias>) returns (r: Update)
    ensures r == UpdateAliases(safePath, text, aliases)
  {
    hide FindTable, Insert, Acceptable, Additions;
    if aliases == [] {
      return Updated(text, false);
    }
    var found, open, close := FindAliasesTable(text);
    if !found {
      return Refused;
    }
    var valid, additions := CollectAdditions(safePath, text, open, close, aliases);
    if !valid {
      return Refused;
    }
    if additions == [] {
      return Updated(text, false);
    }
    var content := InsertAdditions(text, open, close, additions);
    return Updated(content, true);
  }

  method InsertAdditions(text: string, open: nat, close: nat, additions: seq<Alias>) returns (content: string)
    requires open < close < |text|
    ensures content == Insert(text, open, close, additions)
  {
    hide Lines, OneLine, TrimEnd, LineStart, Indentation;
    content := text;
    var last := TrimEnd(text, open + 1, close);
    if last > open + 1 && content[last - 1] != ',' {
      content := content[..last] + "," + content[last..];
    }
    assert content == WithComma(text, open, close);
    if !HasNewline(text[open..close]) {
      var at := close + (|content| - |text|);
      var generated := AppendOneLine(additions);
      content := content[..at] + generated + content[at..];
      return;
    }
    var indent := Indentation(text[LineStart(text, close)..]) + "    ";
    var newline := if HasReturnNewline(text) then "\r\n" else "\n";
    var generated := AppendLines(indent, newline, additions);
    var at := LineStart(content, close);
    content := content[..at] + generated + content[at..];
  }

  /** The text of a new configuration; nothing when an alias or a path is not safe. */
  method GenerateConfig(safePath: string -> bool, aliases: seq<Alias>) returns (r: Option<string>)
    ensures r.Some? <==> forall i :: 0 <= i < |aliases| ==> IsSafeName(aliases[i].name) && safePath(aliases[i].path)
    ensures r.Some? ==> r.value == Generated(aliases)
  {
    hide Lines, Spaces, IsSafeName;
    var valid := true;
    var content := Opening();
    NoLines();
    for i := 0 to |aliases|
      invariant valid <==> forall k :: 0 <= k < i ==> IsSafeName(aliases[k].name) && safePath(aliases[k].path)
      invariant valid ==> content == Opening() + Lines(Spaces(12), "\n", aliases[..i])
    {
      NextLine(aliases, i);
      if !IsSafeName(aliases[i].name) || !safePath(aliases[i].path) {
        valid := false;
        continue;
      }
      content := AppendEntry(content + Spaces(12), aliases[i]);
      content := content + "\n";
    }
    assert aliases[..|aliases|] == aliases;
    content := content + (Spaces(8) + Closing());
    if !valid {
      return None;
    }
    return Some(content);
  }

  lemma NoLines()
    ensures Lines(Spaces(12), "\n", []) == []
  {
  }

  lemma NextLine(aliases: seq<Alias>, i: nat)
    requires i < |aliases|
    ensures Lines(Spaces(12), "\n", aliases[..i + 1]) ==
      Lines(Spaces(12), "\n", aliases[..i]) + Spaces(12) + Entry(aliases[i]) + "\n"
  {
    hide Spaces, Entry;
    assert aliases[..i + 1][..i] == aliases[..i];
  }
}
