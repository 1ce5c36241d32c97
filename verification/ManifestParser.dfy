/** The parser and the printer as they run: a position moving over the source text, and an output that grows. */
module ManifestParser {
  import opened Wrappers
  import opened Characters
  import M = ManifestText

  lemma Tail(s: string, i: nat)
    requires i < |s|
    ensures s[i..] != [] && s[i..][0] == s[i] && s[i..][1..] == s[i + 1..]
  {
  }

  lemma Tail2(s: string, i: nat)
    requires i + 1 < |s|
    ensures s[i..][1] == s[i + 1] && s[i..][2..] == s[i + 2..]
  {
  }

  lemma DropDrop(s: string, i: nat, k: nat)
    requires i + k <= |s|
    ensures s[i..][k..] == s[i + k..] && forall j :: 0 <= j < |s| - i ==> s[i..][j] == s[i + j]
  {
  }

  class StaticManifestParser {
    const source: string
    var position: nat

    ghost predicate Valid()
      reads this
    {
      position <= |source|
    }

    ghost function Rest(): (r: string)
      requires Valid()
      reads this
    {
      source[position..]
    }

    constructor (source: string)
      ensures Valid() && this.source == source && Rest() == source
    {
      this.source, position := source, 0;
    }

    /** The next character, or NUL at the end. */
    function Peek(): (c: char)
      requires Valid()
      reads this
      ensures Rest() != [] ==> c == Rest()[0]
      ensures Rest() == [] ==> c == '\0'
    {
      if position < |source| then source[position] else '\0'
    }

    method Consume(expected: char) returns (ok: bool)
      requires Valid() && expected != '\0'
      modifies this
      ensures Valid() && old(position) <= position && ok == M.Starts(old(Rest()), expected)
      ensures if ok then Rest() == old(Rest())[1..] && old(position) < position else position == old(position)
    {
      if Peek() != expected {
        return false;
      }
      Tail(source, position);
      position := position + 1;
      return true;
    }

    method ConsumeKeyword(keyword: string) returns (ok: bool)
      requires Valid() && keyword != []
      modifies this
      ensures Valid() && old(position) <= position && ok == M.AfterKeyword(old(Rest()), keyword).Some?
      ensures if ok then Rest() == M.AfterKeyword(old(Rest()), keyword).value &&
        old(position) < position else position == old(position)
    {
      var end := position + |keyword|;
      if end > |source| || source[position..end] != keyword {
        assert end <= |source| ==> source[position..end] == Rest()[..|keyword|];
        return false;
      }
      assert keyword <= Rest() && Rest()[|keyword|..] == source[end..];
      if end < |source| && IsIdentifierCharacter(source[end]) {
        assert Rest()[|keyword|] == source[end];
        return false;
      }
      position := end;
      return true;
    }

    /** The position after the first "]]" at or after from, as a search of the text. */
    method FindBlockEnd(from: nat) returns (end: Option<nat>)
      requires from <= |source|
      ensures end.Some? <==> M.AfterBlockComment(source[from..]).Some?
      ensures end.Some? ==>
        from + 2 <= end.value <= |source| && source[end.value..] == M.AfterBlockComment(source[from..]).value
    {
      var i := from;
      while i + 1 < |source|
        invariant from <= i && (i <= |source|)
        invariant M.AfterBlockComment(source[i..]) == M.AfterBlockComment(source[from..])
      {
        Tail(source, i);
        Tail2(source, i);
        if source[i] == ']' && source[i + 1] == ']' {
          return Some(i + 2);
        }
        i := i + 1;
      }
      return None;
    }

    method FindLineEnd(from: nat) returns (end: nat)
      requires from <= |source|
      ensures from <= end <= |source| && source[end..] == M.FromLineEnd(source[from..])
    {
      end := from;
      while end < |source| && source[end] != '\r' && source[end] != '\n'
        invariant from <= end <= |source| && M.FromLineEnd(source[end..]) == M.FromLineEnd(source[from..])
      {
        Tail(source, end);
        end := end + 1;
      }
      if end < |source| {
        Tail(source, end);
      }
    }

    method SkipTrivia()
      requires Valid()
      modifies this
      ensures Valid() && old(position) <= position && Rest() == M.SkipTrivia(old(Rest()))
    {
      hide M.SkipTrivia, M.AfterBlockComment, M.FromLineEnd;
      while position < |source|
        invariant Valid() && old(position) <= position
        invariant M.SkipTrivia(Rest()) == M.SkipTrivia(old(Rest()))
        decreases |source| - position
      {
        TriviaStep(source, position);
        if IsSpace(Peek()) {
          position := position + 1;
          continue;
        }
        if Peek() != '-' || position + 1 >= |source| || source[position + 1] != '-' {
          return;
        }
        position := position + 2;
        if position + 1 < |source| && source[position] == '[' && source[position + 1] == '[' {
          var end := FindBlockEnd(position + 2);
          if end.None? {
            position := |source|;
            break;
          }
          position := end.value;
        } else {
          position := FindLineEnd(position);
        }
      }
      NoTrivia();
    }

    method ReadString() returns (ok: bool, value: string)
      requires Valid()
      modifies this
      ensures Valid() && old(position) <= position && ok == M.ReadString(old(Rest())).Ok?
      ensures ok ==> M.ReadString(old(Rest())) == M.Ok(value, Rest())
    {
      var quote := Peek();
      value := "";
      if quote != '\'' && quote != '"' {
        return false, value;
      }
      Tail(source, position);
      position := position + 1;
      AccumulateNothing(M.ReadQuoted(Rest(), quote));
      while position < |source|
        invariant Valid() && old(position) <= position
        invariant Accumulated(value, M.ReadQuoted(Rest(), quote)) == M.ReadString(old(Rest()))
      {
        var character := source[position];
        Tail(source, position);
        AccumulateOne(value, Rest(), quote);
        position := position + 1;
        if character == quote {
          return true, value;
        }
        if character != '\\' {
          value := value + [character];
          continue;
        }
        if position >= |source| {
          return false, value;
        }
        Tail2(source, position - 1);
        value := value + [M.Unescape(source[position])];
        position := position + 1;
      }
      return false, value;
    }

    method ReadIdentifier() returns (name: string)
      requires Valid()
      modifies this
      ensures Valid() && position == old(position) + M.IdentifierLength(old(Rest()))
      ensures name == old(Rest())[..M.IdentifierLength(old(Rest()))]
      ensures Rest() == old(Rest())[M.IdentifierLength(old(Rest()))..]
    {
      var begin := position;
      while position < |source| && IsIdentifierCharacter(source[position])
        invariant begin <= position <= |source|
        invariant M.IdentifierLength(source[begin..]) == position - begin + M.IdentifierLength(source[position..])
      {
        Tail(source, position);
        position := position + 1;
      }
      if position < |source| {
        Tail(source, position);
      }
      name := source[begin..position];
      assert name == source[begin..][..position - begin];
      DropDrop(source, begin, position - begin);
    }

    method ReadKey() returns (ok: bool, key: string)
      requires Valid()
      modifies this
      ensures Valid() && old(position) <= position && ok == M.ReadKey(old(Rest())).Ok?
      ensures ok ==> M.ReadKey(old(Rest())) == M.Ok(key, Rest())
    {
      hide M.SkipTrivia, M.ReadString, M.IdentifierLength;
      key := "";
      if IsIdentifierStart(Peek()) {
        key := ReadIdentifier();
        return true, key;
      }
      var bracket := Consume('[');
      if !bracket {
        return false, key;
      }
      SkipTrivia();
      ok, key := ReadString();
      if !ok {
        return;
      }
      SkipTrivia();
      ok := Consume(']');
    }

    method ReadScalar() returns (ok: bool, value: M.Value)
      requires Valid()
      modifies this
      ensures Valid() && old(position) <= position && ok == M.ReadScalar(old(Rest())).Ok?
      ensures ok ==> M.ReadScalar(old(Rest())) == M.Ok(value, Rest()) && old(position) < position
    {
      hide M.AfterKeyword, M.ParseInteger, M.TokenLength;
      value := M.Null;
      ok := ConsumeKeyword("true");
      if ok {
        return true, M.Bool(true);
      }
      ok := ConsumeKeyword("false");
      if ok {
        return true, M.Bool(false);
      }
      ok := ConsumeKeyword("nil");
      if ok {
        return true, M.Null;
      }
      var token := ReadToken();
      if token == [] {
        return false, value;
      }
      var integer := M.ParseInteger(token);
      if integer.None? {
        return false, value;
      }
      return true, M.Int(integer.value);
    }

    method ReadToken() returns (token: string)
      requires Valid()
      modifies this
      ensures Valid() && old(position) <= position && |token| == M.TokenLength(old(Rest())) == position - old(position)
      ensures token == old(Rest())[..|token|] && Rest() == old(Rest())[|token|..]
    {
      var begin := position;
      while position < |source| && !IsSpace(source[position]) && source[position] !in {',', ';', '}'}
        invariant begin <= position <= |source|
        invariant M.TokenLength(source[begin..]) == position - begin + M.TokenLength(source[position..])
      {
        Tail(source, position);
        position := position + 1;
      }
      if position < |source| {
        Tail(source, position);
      }
      token := source[begin..position];
      assert token == source[begin..][..position - begin];
      DropDrop(source, begin, position - begin);
    }

    method ReadValue() returns (ok: bool, value: M.Value)
      requires Valid()
      modifies this
      ensures Valid() && old(position) <= position && ok == M.ReadValue(old(Rest())).Ok?
      ensures ok ==> M.ReadValue(old(Rest())) == M.Ok(value, Rest()) && old(position) < position
      decreases |source| - position, 1
    {
      hide M.ReadEntries, M.ReadScalar, M.ReadString;
      if Peek() == '\'' || Peek() == '"' {
        var text;
        ok, text := ReadString();
        value := M.Str(text);
      } else if Peek() == '{' {
        ok, value := ReadTable();
      } else {
        ok, value := ReadScalar();
      }
    }

    /** Reads a key and an equals sign, as the lookahead and then again as the entry. */
    method ReadAssignment() returns (ok: bool, key: string)
      requires Valid()
      modifies this
      ensures Valid() && old(position) <= position && ok == M.ReadAssignment(old(Rest())).Ok?
      ensures ok ==> M.ReadAssignment(old(Rest())) == M.Ok(key, Rest()) && old(position) < position
    {
      hide M.ReadKey, M.SkipTrivia;
      ok, key := ReadKey();
      if ok {
        SkipTrivia();
        ok := Consume('=');
      }
    }

    /** One entry: look ahead for a key and an equals sign, go back, and read what is there. */
    method ReadEntry() returns (ok: bool, keyed: bool, key: string, entry: M.Value)
      requires Valid()
      modifies this
      ensures Valid() && old(position) <= position && keyed == M.ReadAssignment(old(Rest())).Ok?
      ensures keyed ==> key == M.ReadAssignment(old(Rest())).value
      ensures var r := M.ReadValue(if keyed then M.SkipTrivia(M.ReadAssignment(old(Rest())).rest) else old(Rest()));
        ok == r.Ok? && (ok ==> r == M.Ok(entry, Rest()) && old(position) < position)
      decreases |source| - position, 2
    {
      hide M.ReadAssignment, M.SkipTrivia, M.ReadValue;
      var entryStart := position;
      keyed, key := ReadAssignment();
      position := entryStart;
      if keyed {
        keyed, key := ReadAssignment();
        SkipTrivia();
      }
      ok, entry := ReadValue();
    }

    method ReadTable() returns (ok: bool, value: M.Value)
      requires Valid() && M.Starts(Rest(), '{')
      modifies this
      ensures Valid() && old(position) <= position && ok == M.ReadValue(old(Rest())).Ok?
      ensures ok ==> M.ReadValue(old(Rest())) == M.Ok(value, Rest()) && old(position) < position
      decreases |source| - position, 0
    {
      hide M.ReadAssignment, M.SkipTrivia, M.ReadValue, M.Put, M.ReadEntries, M.NextEntry;
      value := M.Null;
      TableValue(Rest());
      var _ := Consume('{');
      ghost var goal := M.ReadEntries(Rest(), [], [], false, false);
      var fields: seq<M.Field>, items: seq<M.Value> := [], [];
      var hasKeyedEntries, hasArrayEntries := false, false;
      while true
        invariant Valid() && old(position) < position
        invariant M.ReadEntries(Rest(), fields, items, hasKeyedEntries, hasArrayEntries) == goal
        decreases |source| - position
      {
        EntriesUnfold(Rest(), fields, items, hasKeyedEntries, hasArrayEntries);
        SkipTrivia();
        var closed := Consume('}');
        if closed {
          break;
        }
        var read, keyed, key, entry := ReadEntry();
        if !read {
          return false, value;
        }
        if keyed {
          fields, hasKeyedEntries := M.Put(fields, key, entry), true;
        } else {
          items, hasArrayEntries := items + [entry], true;
        }
        NextUnfold(Rest(), fields, items, hasKeyedEntries, hasArrayEntries);
        SkipTrivia();
        var comma := Consume(',');
        if comma {
          continue;
        }
        var semicolon := Consume(';');
        if semicolon {
          continue;
        }
        if Peek() != '}' {
          return false, value;
        }
      }
      if hasKeyedEntries && hasArrayEntries {
        return false, value;
      }
      return true, if !hasArrayEntries || hasKeyedEntries then M.Obj(fields) else M.Arr(items);
    }

    method ReadDocument() returns (r: M.DocumentRead)
      requires Valid()
      modifies this
      ensures Valid() && (r.Document? <==> M.ReadDocument(old(Rest()), []).Document?)
      ensures r == M.ReadDocument(old(Rest()), [])
      ensures r.Document? ==> r.rest == Rest()
    {
      hide M.ReadKey, M.SkipTrivia, M.ReadValue, M.Put, M.ReadDocument;
      var fields: seq<M.Field> := [];
      while true
        invariant Valid()
        invariant M.ReadDocument(Rest(), fields) == M.ReadDocument(old(Rest()), [])
        decreases |source| - position
      {
        DocumentUnfold(Rest(), fields);
        SkipTrivia();
        var closed := Consume('}');
        if closed {
          return M.Document(fields, source[position..]);
        }
        var ok, key := ReadKey();
        if !ok {
          return M.DocumentError(M.InvalidKey);
        }
        SkipTrivia();
        var equals := Consume('=');
        if !equals {
          return M.DocumentError(M.MissingEquals);
        }
        SkipTrivia();
        var read, value := ReadValue();
        if !read {
          return M.DocumentError(M.InvalidValue(key));
        }
        fields := M.Put(fields, key, value);
        SkipTrivia();
        var comma := Consume(',');
        if comma {
          continue;
        }
        var semicolon := Consume(';');
        if semicolon {
          continue;
        }
        if Peek() != '}' {
          return M.DocumentError(M.MissingSeparator);
        }
      }
    }

    method Parse() returns (r: M.ManifestResult)
      requires Valid() && position == 0
      modifies this
      ensures r == M.Parse(source)
    {
      hide M.ReadDocument, M.SkipTrivia, M.CheckDocument, M.AfterKeyword;
      assert Rest() == source;
      SkipTrivia();
      var keyword := ConsumeKeyword("return");
      if !keyword {
        return M.Rejected(M.MustStartWithReturn);
      }
      SkipTrivia();
      var brace := Consume('{');
      if !brace {
        return M.Rejected(M.MustReturnTable);
      }
      var document := ReadDocument();
      if document.DocumentError? {
        return M.Rejected(document.error);
      }
      SkipTrivia();
      if position != |source| {
        assert Rest() != [];
        return M.Rejected(M.TrailingContent);
      }
      return M.CheckDocument(document.fields);
    }
  }

  lemma DocumentUnfold(s: string, fields: seq<M.Field>)
    ensures var s1 := M.SkipTrivia(s);
      M.ReadDocument(s, fields) ==
        if M.Starts(s1, '}') then M.Document(fields, s1[1..])
        else if M.ReadKey(s1).Fail? then M.DocumentError(M.InvalidKey)
        else
          var key, after := M.ReadKey(s1).value, M.SkipTrivia(M.ReadKey(s1).rest);
          if !M.Starts(after, '=') then M.DocumentError(M.MissingEquals)
          else
            var r := M.ReadValue(M.SkipTrivia(after[1..]));
            if r.Fail? then M.DocumentError(M.InvalidValue(key))
            else
              var s2 := M.SkipTrivia(r.rest);
              if M.Starts(s2, ',') || M.Starts(s2, ';') then M.ReadDocument(s2[1..], M.Put(fields, key, r.value))
              else if M.Starts(s2, '}') then M.ReadDocument(s2, M.Put(fields, key, r.value))
              else M.DocumentError(M.MissingSeparator)
  {
  }

  lemma NoTrivia()
    ensures M.SkipTrivia([]) == []
  {
  }

  /** One round of the trivia loop at position i of the text. */
  lemma TriviaStep(text: string, i: nat)
    requires i < |text|
    ensures M.SkipTrivia(text[i..]) ==
      if IsSpace(text[i]) then M.SkipTrivia(text[i + 1..])
      else if text[i] != '-' || i + 1 >= |text| || text[i + 1] != '-' then text[i..]
      else if i + 3 < |text| && text[i + 2] == '[' && text[i + 3] == '[' then
        (if M.AfterBlockComment(text[i + 4..]).None? then []
          else M.SkipTrivia(M.AfterBlockComment(text[i + 4..]).value))
      else M.SkipTrivia(M.FromLineEnd(text[i + 2..]))
  {
    var s := text[i..];
    hide M.AfterBlockComment, M.FromLineEnd;
    DropDrop(text, i, 1);
    if i + 1 < |text| {
      DropDrop(text, i, 2);
    }
    if i + 3 < |text| {
      DropDrop(text, i, 4);
    }
  }

  lemma TableValue(s: string)
    requires M.Starts(s, '{')
    ensures M.ReadValue(s) == M.ReadEntries(s[1..], [], [], false, false)
  {
  }

  lemma EntriesUnfold(s: string, fields: seq<M.Field>, items: seq<M.Value>, keyed: bool, positional: bool)
    ensures var s1 := M.SkipTrivia(s);
      M.ReadEntries(s, fields, items, keyed, positional) ==
        if M.Starts(s1, '}') then
          (if keyed && positional then M.Fail
            else M.Ok(if !positional || keyed then M.Obj(fields) else M.Arr(items), s1[1..]))
        else if M.ReadAssignment(s1).Ok? then
          var r := M.ReadValue(M.SkipTrivia(M.ReadAssignment(s1).rest));
          (if r.Fail? then M.Fail else M.NextEntry(r.rest, M.Put(fields, M.ReadAssignment(s1).value, r.value), items,
            true, positional))
        else
          var r := M.ReadValue(s1);
          if r.Fail? then M.Fail else M.NextEntry(r.rest, fields, items + [r.value], keyed, true)
  {
  }

  lemma NextUnfold(s: string, fields: seq<M.Field>, items: seq<M.Value>, keyed: bool, positional: bool)
    ensures var s1 := M.SkipTrivia(s);
      M.NextEntry(s, fields, items, keyed, positional) ==
        if M.Starts(s1, ',') || M.Starts(s1, ';') then M.ReadEntries(s1[1..], fields, items, keyed, positional)
        else if M.Starts(s1, '}') then M.ReadEntries(s1, fields, items, keyed, positional)
        else M.Fail
  {
  }

  /** A reading result with text already read put in front. */
  ghost function Accumulated(done: string, r: M.Read<string>): (t: M.Read<string>) {
    match r
    case Fail => M.Fail
    case Ok(v, rest) => M.Ok(done + v, rest)
  }

  lemma AccumulateNothing(r: M.Read<string>)
    ensures Accumulated("", r) == r
  {
    if r.Ok? {
      assert "" + r.value == r.value;
    }
  }

  lemma AccumulateOne(done: string, s: string, quote: char)
    requires s != []
    ensures s[0] == quote ==> Accumulated(done, M.ReadQuoted(s, quote)) == M.Ok(done, s[1..])
    ensures s[0] != quote && s[0] != '\\' ==>
      Accumulated(done, M.ReadQuoted(s, quote)) == Accumulated(done + [s[0]], M.ReadQuoted(s[1..], quote))
    ensures s[0] != quote && s[0] == '\\' && |s| >= 2 ==>
      Accumulated(done, M.ReadQuoted(s, quote)) == Accumulated(done + [M.Unescape(s[1])], M.ReadQuoted(s[2..], quote))
    ensures s[0] != quote && s[0] == '\\' && |s| < 2 ==> Accumulated(done, M.ReadQuoted(s, quote)).Fail?
  {
    if s[0] == quote {
      assert done + "" == done;
    } else if s[0] != '\\' {
      var r := M.ReadQuoted(s[1..], quote);
      if r.Ok? {
        assert done + ([s[0]] + r.value) == (done + [s[0]]) + r.value;
      }
    } else if |s| >= 2 {
      var r := M.ReadQuoted(s[2..], quote);
      if r.Ok? {
        assert done + ([M.Unescape(s[1])] + r.value) == (done + [M.Unescape(s[1])]) + r.value;
      }
    }
  }

  // ----- the printer -----

  function FieldsFrom(fields: seq<M.Field>, i: nat, indent: nat): (r: string)
    requires i <= |fields|
  {
    (if 0 < i < |fields| then ",\n" else "") + M.SerializeFields(fields[i..], indent)
  }

  function ItemsFrom(items: seq<M.Value>, i: nat, indent: nat): (r: string)
    requires i <= |items|
  {
    (if 0 < i < |items| then ",\n" else "") + M.SerializeItems(items[i..], indent)
  }

  function FieldText(f: M.Field, first: bool, indent: nat): (r: string) {
    (if first then "" else ",\n") + Spaces(indent) + "[" + M.EscapeLuauString(f.key) + "] = " +
      M.SerializeValue(f.value, indent)
  }

  function ItemText(v: M.Value, first: bool, indent: nat): (r: string) {
    (if first then "" else ",\n") + Spaces(indent) + M.SerializeValue(v, indent)
  }

  lemma FieldsFromStep(fields: seq<M.Field>, i: nat, indent: nat)
    requires i < |fields|
    ensures FieldsFrom(fields, i, indent) == FieldText(fields[i], i == 0, indent) + FieldsFrom(fields, i + 1, indent)
  {
    hide M.SerializeValue, M.EscapeLuauString;
    assert fields[i..][0] == fields[i] && fields[i..][1..] == fields[i + 1..];
  }

  lemma ItemsFromStep(items: seq<M.Value>, i: nat, indent: nat)
    requires i < |items|
    ensures ItemsFrom(items, i, indent) == ItemText(items[i], i == 0, indent) + ItemsFrom(items, i + 1, indent)
  {
    hide M.SerializeValue;
    assert items[i..][0] == items[i] && items[i..][1..] == items[i + 1..];
  }

  lemma Appends(a: string, b: string, c: string)
    ensures a + b + c == a + (b + c)
  {
  }

  lemma Braced(output: string, body: string, padding: string)
    ensures output + "{\n" + body + "\n" + padding + "}" == output + ("{\n" + body + "\n" + padding + "}")
  {
  }

  method SerializeValue(v: M.Value, output: string, indent: nat) returns (out: string)
    ensures out == output + M.SerializeValue(v, indent)
    decreases v
  {
    hide M.SerializeFields, M.SerializeItems, M.EscapeLuauString, M.PrintInt;
    match v {
      case Obj(fields) =>
        out := SerializeObject(fields, output + "{\n", indent + 4);
        out := out + "\n" + Spaces(indent) + "}";
        Braced(output, M.SerializeFields(fields, indent + 4), Spaces(indent));
      case Arr(items) =>
        out := SerializeArray(items, output + "{\n", indent + 4);
        out := out + "\n" + Spaces(indent) + "}";
        Braced(output, M.SerializeItems(items, indent + 4), Spaces(indent));
      case Str(s) => out := output + M.EscapeLuauString(s);
      case Bool(b) => out := output + if b then "true" else "false";
      case Null => out := output + "nil";
      case Int(n) => out := output + M.PrintInt(n);
    }
  }

  method SerializeObject(fields: seq<M.Field>, output: string, indent: nat) returns (out: string)
    ensures out == output + M.SerializeFields(fields, indent)
    decreases fields, 0
  {
    hide M.SerializeValue, M.EscapeLuauString, FieldsFrom, M.SerializeFields;
    out := output;
    FieldsFromEnds(fields, indent);
    for i := 0 to |fields|
      invariant out + FieldsFrom(fields, i, indent) == output + M.SerializeFields(fields, indent)
    {
      FieldsFromStep(fields, i, indent);
      ghost var before := out;
      if i != 0 {
        out := out + ",\n";
      }
      out := out + Spaces(indent) + "[" + M.EscapeLuauString(fields[i].key) + "] = ";
      out := SerializeValue(fields[i].value, out, indent);
      assert out == before + FieldText(fields[i], i == 0, indent);
      Appends(before, FieldText(fields[i], i == 0, indent), FieldsFrom(fields, i + 1, indent));
    }
  }

  lemma FieldsFromEnds(fields: seq<M.Field>, indent: nat)
    ensures FieldsFrom(fields, 0, indent) == M.SerializeFields(fields, indent)
    ensures FieldsFrom(fields, |fields|, indent) == ""
  {
    assert fields[0..] == fields && fields[|fields|..] == [];
  }

  method SerializeArray(items: seq<M.Value>, output: string, indent: nat) returns (out: string)
    ensures out == output + M.SerializeItems(items, indent)
    decreases items, 0
  {
    hide M.SerializeValue, ItemsFrom, M.SerializeItems;
    out := output;
    ItemsFromEnds(items, indent);
    for i := 0 to |items|
      invariant out + ItemsFrom(items, i, indent) == output + M.SerializeItems(items, indent)
    {
      ItemsFromStep(items, i, indent);
      ghost var before := out;
      if i != 0 {
        out := out + ",\n";
      }
      out := out + Spaces(indent);
      out := SerializeValue(items[i], out, indent);
      assert out == before + ItemText(items[i], i == 0, indent);
      Appends(before, ItemText(items[i], i == 0, indent), ItemsFrom(items, i + 1, indent));
    }
  }

  lemma ItemsFromEnds(items: seq<M.Value>, indent: nat)
    ensures ItemsFrom(items, 0, indent) == M.SerializeItems(items, indent) && ItemsFrom(items, |items|, indent) == ""
  {
    assert items[0..] == items && items[|items|..] == [];
  }
}
