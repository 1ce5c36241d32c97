/** The printer and the parser of manifest values agree. */
module ManifestRoundTrip {
  import opened Wrappers
  import opened Characters
  import opened StringOrder
  import opened ManifestText

  // ----- trivia -----

  lemma {:induction false} SkipSpaces(n: nat, s: string)
    requires s != [] && !IsSpace(s[0]) && s[0] != '-'
    ensures SkipTrivia(Spaces(n) + s) == s
  {
    if n == 0 {
      assert Spaces(0) + s == s;
    } else {
      assert (Spaces(n) + s)[1..] == Spaces(n - 1) + s;
      SkipSpaces(n - 1, s);
    }
  }

  lemma SkipNewline(s: string)
    ensures SkipTrivia("\n" + s) == SkipTrivia(s)
  {
    assert ("\n" + s)[1..] == s;
  }

  // ----- strings -----

  lemma EscapedChar(c: char, tail: string, v: string, rest: string)
    requires ReadQuoted(tail, '"') == Ok(v, rest)
    ensures ReadQuoted(EscapeChar(c) + tail, '"') == Ok([c] + v, rest)
  {
    var text := EscapeChar(c) + tail;
    if |EscapeChar(c)| == 2 {
      assert text[2..] == tail;
      assert text[0] == '\\' && Unescape(text[1]) == c;
    } else {
      assert text[1..] == tail;
    }
  }

  lemma {:induction false} QuotedRoundTrip(s: string, rest: string)
    ensures ReadQuoted(EscapeAll(s) + "\"" + rest, '"') == Ok(s, rest)
  {
    var text := EscapeAll(s) + "\"" + rest;
    if s == [] {
      assert text == "\"" + rest;
      assert text[1..] == rest;
    } else {
      var tail := EscapeAll(s[1..]) + "\"" + rest;
      hide ReadQuoted, EscapeChar;
      QuotedRoundTrip(s[1..], rest);
      EscapedChar(s[0], tail, s[1..], rest);
      assert text == EscapeChar(s[0]) + tail;
      assert [s[0]] + s[1..] == s;
    }
  }

  lemma StringRoundTrip(s: string, rest: string)
    ensures ReadString(EscapeLuauString(s) + rest) == Ok(s, rest)
    ensures Starts(EscapeLuauString(s) + rest, '"')
  {
    hide ReadQuoted, EscapeAll;
    var text := EscapeLuauString(s) + rest;
    assert text[1..] == EscapeAll(s) + "\"" + rest;
    QuotedRoundTrip(s, rest);
  }

  lemma SkipNothing(s: string)
    requires s != [] && !IsSpace(s[0]) && s[0] != '-'
    ensures SkipTrivia(s) == s
  {
  }

  lemma SkipBlank(s: string)
    requires s != [] && !IsSpace(s[0]) && s[0] != '-'
    ensures SkipTrivia(" " + s) == s
  {
    assert (" " + s)[1..] == s;
  }

  lemma KeyRoundTrip(key: string, rest: string)
    ensures ReadKey("[" + EscapeLuauString(key) + "]" + rest) == Ok(key, rest)
  {
    var text := "[" + EscapeLuauString(key) + "]" + rest;
    var quoted := EscapeLuauString(key) + ("]" + rest);
    hide SkipTrivia, ReadString, EscapeLuauString;
    assert text[1..] == quoted;
    StringRoundTrip(key, "]" + rest);
    SkipNothing(quoted);
    SkipNothing("]" + rest);
    assert ("]" + rest)[1..] == rest;
  }

  /** A printed key, its equals sign and the blank after it. */
  lemma AssignmentRoundTrip(key: string, rest: string)
    ensures ReadAssignment("[" + EscapeLuauString(key) + "] = " + rest) == Ok(key, " " + rest)
  {
    hide SkipTrivia, ReadKey, EscapeLuauString;
    KeyRoundTrip(key, " = " + rest);
    assert "[" + EscapeLuauString(key) + "] = " + rest == "[" + EscapeLuauString(key) + "]" + (" = " + rest);
    assert " = " + rest == " " + ("= " + rest);
    SkipBlank("= " + rest);
    assert ("= " + rest)[1..] == " " + rest;
  }

  // ----- integers -----

  lemma {:induction false} NatRoundTrip(n: nat)
    ensures AllDigits(PrintNat(n)) && PrintNat(n) != [] && DigitsValue(PrintNat(n)) == n
  {
    if n >= 10 {
      NatRoundTrip(n / 10);
      var s := PrintNat(n);
      assert s[..|s| - 1] == PrintNat(n / 10);
    } else {
      var s := PrintNat(n);
      assert s == ["0123456789"[n % 10]] && s[..0] == [];
    }
  }

  lemma IntRoundTrip(n: int)
    requires INT64_MIN <= n <= INT64_MAX
    ensures ParseInteger(PrintInt(n)) == Some(n)
    ensures PrintInt(n) != [] && forall i :: 0 <= i < |PrintInt(n)| ==> IsDigit(PrintInt(n)[i]) || PrintInt(n)[i] == '-'
  {
    hide PrintNat, DigitsValue;
    var digits := PrintNat(if n < 0 then -n else n);
    NatRoundTrip(if n < 0 then -n else n);
    if n < 0 {
      assert PrintInt(n) == "-" + digits && PrintInt(n)[1..] == digits;
    } else {
      assert PrintInt(n) == digits && IsDigit(digits[0]);
    }
  }

  /** What may follow a printed value: a separator or the end of the line, and no equals sign after that. */
  ghost predicate Delimits(rest: string) {
    rest != [] && (rest[0] == ',' || rest[0] == '\n') && !Starts(SkipTrivia(rest), '=')
  }

  lemma {:induction false} TokenEnds(token: string, rest: string)
    requires Delimits(rest) && forall i :: 0 <= i < |token| ==> IsDigit(token[i]) || token[i] == '-'
    ensures TokenLength(token + rest) == |token|
  {
    if token == [] {
      assert token + rest == rest;
    } else {
      assert (token + rest)[1..] == token[1..] + rest;
      TokenEnds(token[1..], rest);
    }
  }

  lemma ScalarValue(s: string)
    requires s != [] && s[0] != '\'' && s[0] != '"' && s[0] != '{'
    ensures ReadValue(s) == ReadScalar(s)
  {
  }

  lemma OtherKeyword(s: string, keyword: string)
    requires s != [] && keyword != [] && s[0] != keyword[0]
    ensures AfterKeyword(s, keyword).None?
  {
  }

  lemma NotAKey(s: string)
    requires s != [] && !IsIdentifierStart(s[0]) && s[0] != '['
    ensures ReadAssignment(s).Fail?
  {
  }

  lemma IntegerRoundTrip(n: int, rest: string)
    requires INT64_MIN <= n <= INT64_MAX && Delimits(rest)
    ensures ReadValue(PrintInt(n) + rest) == Ok(Int(n), rest)
    ensures ReadAssignment(PrintInt(n) + rest).Fail?
  {
    IntRoundTrip(n);
    TokenEnds(PrintInt(n), rest);
    hide PrintInt, ParseInteger, TokenLength, Delimits, AfterKeyword, ReadValue, ReadAssignment;
    var s := PrintInt(n) + rest;
    assert s[0] == PrintInt(n)[0];
    ScalarValue(s);
    OtherKeyword(s, "true");
    OtherKeyword(s, "false");
    OtherKeyword(s, "nil");
    NotAKey(s);
    assert s[..|PrintInt(n)|] == PrintInt(n) && s[|PrintInt(n)|..] == rest;
  }

  lemma {:induction false} IdentifierEnds(word: string, rest: string)
    requires Delimits(rest) && forall i :: 0 <= i < |word| ==> IsIdentifierCharacter(word[i])
    ensures IdentifierLength(word + rest) == |word|
  {
    if word == [] {
      assert word + rest == rest;
    } else {
      assert (word + rest)[1..] == word[1..] + rest;
      IdentifierEnds(word[1..], rest);
    }
  }

  lemma WordIsNotAKey(word: string, rest: string)
    requires word != [] && IsIdentifierStart(word[0]) && Delimits(rest)
    requires forall i :: 0 <= i < |word| ==> IsIdentifierCharacter(word[i])
    ensures ReadAssignment(word + rest).Fail?
    ensures AfterKeyword(word + rest, word) == Some(rest)
  {
    IdentifierEnds(word, rest);
    hide IdentifierLength, SkipTrivia;
    var s := word + rest;
    assert s[0] == word[0];
    assert s[|word|..] == rest && s[|word|] == rest[0];
    assert word <= s;
  }

  /** true, false and nil: read as values, and not mistaken for keys. */
  lemma KeywordRoundTrip(v: Value, indent: nat, rest: string)
    requires (v.Bool? || v.Null?) && Delimits(rest)
    ensures ReadValue(SerializeValue(v, indent) + rest) == Ok(v, rest)
    ensures ReadAssignment(SerializeValue(v, indent) + rest).Fail?
  {
    var word := SerializeValue(v, indent);
    var s := word + rest;
    assert s[0] == word[0];
    WordIsNotAKey(word, rest);
    hide AfterKeyword, ReadValue, ReadAssignment, Delimits, TokenLength, ParseInteger;
    ScalarValue(s);
    if word != "true" {
      OtherKeyword(s, "true");
      if word != "false" {
        OtherKeyword(s, "false");
      }
    }
  }

  // ----- fields in key order -----

  lemma {:induction false} PutAppends(fields: seq<Field>, key: string, value: Value)
    requires forall i :: 0 <= i < |fields| ==> Less(fields[i].key, key)
    ensures Put(fields, key, value) == fields + [Field(key, value)]
  {
    if fields != [] {
      LessIsStrict(fields[0].key, key);
      PutAppends(fields[1..], key, value);
      assert fields == [fields[0]] + fields[1..];
    }
  }

  lemma {:induction false} NormalizeFieldsAppend(fields: seq<Field>, f: Field)
    ensures NormalizeFields(fields + [f]) == NormalizeFields(fields) + [Field(f.key, Normalize(f.value))]
  {
    if fields != [] {
      assert (fields + [f])[1..] == fields[1..] + [f];
      NormalizeFieldsAppend(fields[1..], f);
    }
  }

  lemma PutNext(done: seq<Field>, fields: seq<Field>)
    requires fields != [] && Sorted(done + fields)
    ensures Put(NormalizeFields(done), fields[0].key, Normalize(fields[0].value)) == NormalizeFields(done + [fields[0]])
  {
    var all := done + fields;
    forall i | 0 <= i < |done|
      ensures Less(NormalizeFields(done)[i].key, fields[0].key)
    {
      assert all[i] == done[i] && all[|done|] == fields[0];
    }
    PutAppends(NormalizeFields(done), fields[0].key, Normalize(fields[0].value));
    NormalizeFieldsAppend(done, fields[0]);
  }

  lemma {:induction false} NormalizeItemsAppend(items: seq<Value>, v: Value)
    ensures NormalizeItems(items + [v]) == NormalizeItems(items) + [Normalize(v)]
  {
    if items != [] {
      assert (items + [v])[1..] == items[1..] + [v];
      NormalizeItemsAppend(items[1..], v);
    }
  }

  // ----- values -----

  function Close(indent: nat): (r: string) {
    "\n" + Spaces(indent) + "}"
  }

  lemma SkipToClose(indent: nat, rest: string)
    ensures SkipTrivia(Close(indent) + rest) == "}" + rest
  {
    assert Close(indent) + rest == "\n" + (Spaces(indent) + ("}" + rest));
    SkipNewline(Spaces(indent) + ("}" + rest));
    SkipSpaces(indent, "}" + rest);
  }

  /** Printed text that starts no comment and no blank, so that trivia in front of it is skipped exactly. */
  ghost predicate Solid(s: string) {
    s != [] && !IsSpace(s[0]) && s[0] != '}' && (s[0] != '-' || (|s| > 1 && s[1] != '-'))
  }

  lemma {:induction false} SkipToSolid(n: nat, s: string)
    requires Solid(s)
    ensures SkipTrivia(Spaces(n) + s) == s
  {
    if n == 0 {
      assert Spaces(0) + s == s;
    } else {
      assert (Spaces(n) + s)[1..] == Spaces(n - 1) + s;
      SkipToSolid(n - 1, s);
    }
  }

  lemma PrintedIsSolid(v: Value, indent: nat, rest: string)
    requires WellFormed(v) && Delimits(rest)
    ensures Solid(SerializeValue(v, indent) + rest)
  {
    if v.Int? {
      IntRoundTrip(v.n);
      NatRoundTrip(if v.n < 0 then -v.n else v.n);
      var s := PrintInt(v.n) + rest;
      assert s[0] == PrintInt(v.n)[0];
      if v.n < 0 {
        assert s[1] == PrintNat(-v.n)[0];
      }
    }
  }

  function AfterField(fields: seq<Field>, indent: nat, rest: string): (r: string) {
    (if fields != [] then ",\n" + SerializeFields(fields, indent + 4) else "") + Close(indent) + rest
  }

  function AfterItem(items: seq<Value>, indent: nat, rest: string): (r: string) {
    (if items != [] then ",\n" + SerializeItems(items, indent + 4) else "") + Close(indent) + rest
  }

  lemma AfterEntryDelimits(more: bool, text: string, indent: nat, rest: string)
    ensures Delimits((if more then ",\n" + text else "") + Close(indent) + rest)
  {
    var s := (if more then ",\n" + text else "") + Close(indent) + rest;
    if more {
      assert s[0] == ',';
    } else {
      SkipToClose(indent, rest);
      assert s == Close(indent) + rest;
    }
  }

  /** After an entry the reader is at the next line, or at the closing brace. */
  lemma NextAfterEntry(more: bool, text: string, indent: nat, rest: string, fields: seq<Field>, items: seq<Value>,
                       keyed: bool, positional: bool)
    ensures var s := (if more then ",\n" + text else "") + Close(indent) + rest;
      NextEntry(s, fields, items, keyed, positional) ==
        ReadEntries(if more then "\n" + text + Close(indent) + rest else "}" + rest, fields, items, keyed, positional)
  {
    var s := (if more then ",\n" + text else "") + Close(indent) + rest;
    if more {
      assert s[0] == ',' && s[1..] == "\n" + text + Close(indent) + rest;
      SkipNothing(s);
    } else {
      assert s == Close(indent) + rest;
      SkipToClose(indent, rest);
    }
    hide ReadEntries, SkipTrivia;
  }

  lemma ClosingBrace(s: string, rest: string, fields: seq<Field>, items: seq<Value>, keyed: bool, positional: bool)
    requires SkipTrivia(s) == "}" + rest && !(keyed && positional)
    ensures ReadEntries(s, fields, items, keyed, positional) == Ok(if positional then Arr(items) else Obj(fields), rest)
  {
    assert ("}" + rest)[1..] == rest;
  }

  lemma EmptyTable(indent: nat, rest: string, fields: seq<Field>, items: seq<Value>, keyed: bool, positional: bool)
    requires !(keyed && positional)
    ensures ReadEntries("\n" + "" + Close(indent) + rest, fields, items, keyed, positional) ==
      Ok(if positional then Arr(items) else Obj(fields), rest)
  {
    var s := "\n" + "" + Close(indent) + rest;
    assert s == "\n" + (Close(indent) + rest);
    SkipNewline(Close(indent) + rest);
    SkipToClose(indent, rest);
    ClosingBrace(s, rest, fields, items, keyed, positional);
  }

  lemma BraceNext(rest: string, fields: seq<Field>, items: seq<Value>, keyed: bool, positional: bool)
    requires !(keyed && positional)
    ensures ReadEntries("}" + rest, fields, items, keyed, positional) ==
      Ok(if positional then Arr(items) else Obj(fields), rest)
  {
    SkipNothing("}" + rest);
    ClosingBrace("}" + rest, rest, fields, items, keyed, positional);
  }

  /** One printed field at the head of the remaining entries. */
  lemma FieldStep(f: Field, indent: nat, after: string, fields: seq<Field>, keyed: bool, v: Value)
    requires WellFormed(f.value) && Delimits(after)
    requires ReadValue(SerializeValue(f.value, indent) + after) == Ok(v, after)
    ensures var key, value := EscapeLuauString(f.key), SerializeValue(f.value, indent);
      var text := Spaces(indent) + "[" + key + "] = " + value + after;
      ReadEntries("\n" + text, fields, [], keyed, false) == NextEntry(after, Put(fields, f.key, v), [], true, false)
  {
    PrintedIsSolid(f.value, indent, after);
    hide SkipTrivia, ReadAssignment, ReadValue, NextEntry, SerializeValue, Put, WellFormed, Delimits, EscapeLuauString,
      Spaces;
    var value := SerializeValue(f.value, indent) + after;
    var entry := "[" + EscapeLuauString(f.key) + "] = " + value;
    AssignmentRoundTrip(f.key, value);
    OneSpace(value);
    FieldText(Spaces(indent), EscapeLuauString(f.key), SerializeValue(f.value, indent), after);
    SkipNewline(Spaces(indent) + entry);
    SkipToSolid(indent, entry);
  }

  lemma OneSpace(s: string)
    requires Solid(s)
    ensures SkipTrivia(" " + s) == s
  {
    SkipToSolid(1, s);
    assert Spaces(1) + s == " " + s;
  }

  lemma FieldText(padding: string, key: string, value: string, after: string)
    ensures "\n" + (padding + "[" + key + "] = " + value + after) ==
      "\n" + (padding + ("[" + key + "] = " + (value + after)))
  {
  }

  lemma ItemStep(item: Value, indent: nat, after: string, items: seq<Value>, positional: bool, v: Value)
    requires WellFormed(item) && Delimits(after)
    requires ReadValue(SerializeValue(item, indent) + after) == Ok(v, after)
    requires ReadAssignment(SerializeValue(item, indent) + after).Fail?
    ensures ReadEntries("\n" + (Spaces(indent) + SerializeValue(item, indent) + after), [], items, false, positional)
      == NextEntry(after, [], items + [v], false, true)
  {
    hide SkipTrivia, ReadAssignment, ReadValue, NextEntry, SerializeValue, WellFormed, Delimits, Spaces, ReadEntries;
    var entry := SerializeValue(item, indent) + after;
    PrintedIsSolid(item, indent, after);
    var s := "\n" + (Spaces(indent) + SerializeValue(item, indent) + after);
    assert s == "\n" + (Spaces(indent) + entry);
    SkipNewline(Spaces(indent) + entry);
    SkipToSolid(indent, entry);
    OneItem(s, entry, items, positional, v, after);
  }

  lemma OneItem(s: string, entry: string, items: seq<Value>, positional: bool, v: Value, after: string)
    requires SkipTrivia(s) == entry && !Starts(entry, '}')
    requires ReadAssignment(entry).Fail? && ReadValue(entry) == Ok(v, after)
    ensures ReadEntries(s, [], items, false, positional) == NextEntry(after, [], items + [v], false, true)
  {
    hide SkipTrivia, ReadAssignment, ReadValue, NextEntry;
  }

  /** A closed printed value reads back as its normal form, and is not taken for a key. */
  ghost predicate ReadsBack(v: Value, indent: nat, rest: string) {
    && ReadValue(SerializeValue(v, indent) + rest) == Ok(Normalize(v), rest)
    && ReadAssignment(SerializeValue(v, indent) + rest).Fail?
  }

  lemma {:induction false} ValueRoundTrip(v: Value, indent: nat, rest: string)
    requires WellFormed(v) && Delimits(rest)
    ensures ReadsBack(v, indent, rest)
    decreases v, 1
  {
    match v
    case Int(n) => IntegerRoundTrip(n, rest);
    case Str(s) => StringRoundTrip(s, rest); NotAKey(EscapeLuauString(s) + rest);
    case Arr(items) =>
      ItemsRoundTrip([], items, indent, rest);
      TableOpens(v, SerializeItems(items, indent + 4), indent, rest);
      assert [] + items == items;
    case Obj(fields) =>
      assert [] + fields == fields;
      FieldsRoundTrip([], fields, indent, rest);
      TableOpens(v, SerializeFields(fields, indent + 4), indent, rest);
    case _ => KeywordRoundTrip(v, indent, rest);
  }

  lemma TableOpens(v: Value, text: string, indent: nat, rest: string)
    requires SerializeValue(v, indent) == "{\n" + text + "\n" + Spaces(indent) + "}"
    ensures ReadValue(SerializeValue(v, indent) + rest) ==
      ReadEntries("\n" + text + Close(indent) + rest, [], [], false, false)
    ensures ReadAssignment(SerializeValue(v, indent) + rest).Fail?
  {
    var s := SerializeValue(v, indent) + rest;
    assert s[0] == '{' && s[1..] == "\n" + text + Close(indent) + rest;
    NotAKey(s);
    hide ReadEntries, ReadAssignment, SerializeValue;
  }

  lemma {:induction false} FieldsRoundTrip(done: seq<Field>, fields: seq<Field>, indent: nat, rest: string)
    requires Sorted(done + fields) && forall i :: 0 <= i < |fields| ==> WellFormed(fields[i].value)
    ensures var text := "\n" + SerializeFields(fields, indent + 4) + Close(indent) + rest;
      ReadEntries(text, NormalizeFields(done), [], done != [], false) == Ok(Obj(NormalizeFields(done + fields)), rest)
    decreases fields, 0
  {
    hide ReadEntries, NextEntry, ReadValue, ReadAssignment, SerializeValue, Close, SkipTrivia, Delimits, Put,
      EscapeLuauString, Normalize, Less;
    if fields == [] {
      assert done + fields == done;
      EmptyTable(indent, rest, NormalizeFields(done), [], done != [], false);
    } else {
      var f, more := fields[0], fields[1..];
      var after := AfterField(more, indent, rest);
      AfterEntryDelimits(more != [], SerializeFields(more, indent + 4), indent, rest);
      ValueRoundTrip(f.value, indent + 4, after);
      FieldStep(f, indent + 4, after, NormalizeFields(done), done != [], Normalize(f.value));
      PutNext(done, fields);
      var next := done + [f];
      NextAfterEntry(more != [], SerializeFields(more, indent + 4), indent, rest, NormalizeFields(next), [], true,
                     false);
      assert next + more == done + fields;
      if more == [] {
        BraceNext(rest, NormalizeFields(next), [], true, false);
        assert next == done + fields;
      } else {
        FieldsRoundTrip(next, more, indent, rest);
      }
      FieldsText(f, more, indent, rest);
      assert [f] + more == fields;
    }
  }

  lemma FieldsText(f: Field, more: seq<Field>, indent: nat, rest: string)
    ensures "\n" + SerializeFields([f] + more, indent + 4) + Close(indent) + rest ==
      "\n" + (Spaces(indent + 4) + "[" + EscapeLuauString(f.key) + "] = " + SerializeValue(f.value, indent + 4) +
        AfterField(more, indent, rest))
  {
    assert ([f] + more)[1..] == more;
    hide SerializeValue, EscapeLuauString, Close;
  }

  lemma {:induction false} ItemsRoundTrip(done: seq<Value>, items: seq<Value>, indent: nat, rest: string)
    requires forall i :: 0 <= i < |items| ==> WellFormed(items[i])
    ensures var text := "\n" + SerializeItems(items, indent + 4) + Close(indent) + rest;
      var whole := if done + items == [] then Obj([]) else Arr(NormalizeItems(done + items));
      ReadEntries(text, [], NormalizeItems(done), false, done != []) == Ok(whole, rest)
    decreases items, 0
  {
    hide ReadEntries, NextEntry, ReadValue, ReadAssignment, SerializeValue, Close, SkipTrivia, Delimits, Normalize;
    if items == [] {
      assert done + items == done;
      EmptyTable(indent, rest, [], NormalizeItems(done), false, done != []);
    } else {
      var item, more := items[0], items[1..];
      var after := AfterItem(more, indent, rest);
      AfterEntryDelimits(more != [], SerializeItems(more, indent + 4), indent, rest);
      ValueRoundTrip(item, indent + 4, after);
      ItemStep(item, indent + 4, after, NormalizeItems(done), done != [], Normalize(item));
      NormalizeItemsAppend(done, item);
      var next := done + [item];
      NextAfterEntry(more != [], SerializeItems(more, indent + 4), indent, rest, [], NormalizeItems(next), false, true);
      assert next + more == done + items;
      if more == [] {
        BraceNext(rest, [], NormalizeItems(next), false, true);
        assert next == done + items;
      } else {
        ItemsRoundTrip(next, more, indent, rest);
      }
      ItemsText(item, more, indent, rest);
      assert [item] + more == items;
    }
  }

  lemma ItemsText(item: Value, more: seq<Value>, indent: nat, rest: string)
    ensures "\n" + SerializeItems([item] + more, indent + 4) + Close(indent) + rest ==
      "\n" + (Spaces(indent + 4) + SerializeValue(item, indent + 4) + AfterItem(more, indent, rest))
  {
    assert ([item] + more)[1..] == more;
    hide SerializeValue, Close;
  }

  // ----- what the parser can produce -----

  /** Well formed and free of empty arrays, as every parsed value is. */
  ghost predicate Canonical(v: Value) {
    WellFormed(v) && !HasEmptyArray(v)
  }

  ghost predicate CanonicalFields(fields: seq<Field>) {
    Sorted(fields) && forall i :: 0 <= i < |fields| ==> Canonical(fields[i].value)
  }

  ghost predicate CanonicalItems(items: seq<Value>) {
    forall i :: 0 <= i < |items| ==> Canonical(items[i])
  }

  /** The key is the new one or was there. */
  ghost predicate KeyFrom(fields: seq<Field>, key: string, k: string) {
    k == key || exists j :: 0 <= j < |fields| && k == fields[j].key
  }

  lemma {:induction false} PutKeepsCanonical(fields: seq<Field>, key: string, value: Value)
    requires CanonicalFields(fields) && Canonical(value)
    ensures CanonicalFields(Put(fields, key, value))
    ensures forall i :: 0 <= i < |Put(fields, key, value)| ==> KeyFrom(fields, key, Put(fields, key, value)[i].key)
  {
    hide Canonical, Less;
    if fields == [] {
    } else if fields[0].key == key {
    } else if Less(key, fields[0].key) {
      forall i | 0 <= i < |fields| ensures Less(key, fields[i].key) {
        if i > 0 {
          LessIsTransitive(key, fields[0].key, fields[i].key);
        }
      }
    } else {
      LessIsTotal(key, fields[0].key);
      var tail := fields[1..];
      assert fields == [fields[0]] + tail;
      PutKeepsCanonical(tail, key, value);
      var rest := Put(tail, key, value);
      forall i | 0 <= i < |rest| ensures Less(fields[0].key, rest[i].key) && KeyFrom(fields, key, rest[i].key) {
        assert KeyFrom(tail, key, rest[i].key);
        if rest[i].key != key {
          var j :| 0 <= j < |tail| && rest[i].key == tail[j].key;
          assert tail[j] == fields[j + 1];
        }
      }
      hide KeyFrom;
      assert Put(fields, key, value) == [fields[0]] + rest;
      assert KeyFrom(fields, key, fields[0].key) by {
        HeadIsThere(fields, key);
      }
    }
  }

  lemma HeadIsThere(fields: seq<Field>, key: string)
    requires fields != []
    ensures KeyFrom(fields, key, fields[0].key)
  {
  }

  lemma {:induction false} ReadValueIsCanonical(s: string)
    requires ReadValue(s).Ok?
    ensures Canonical(ReadValue(s).value)
    decreases |s|, 0
  {
    if Starts(s, '{') {
      ReadEntriesIsCanonical(s[1..], [], [], false, false);
    }
  }

  lemma {:induction false} ReadEntriesIsCanonical(s: string, fields: seq<Field>, items: seq<Value>, keyed: bool,
                                                  positional: bool)
    requires CanonicalFields(fields) && CanonicalItems(items) && (positional ==> items != [])
    requires ReadEntries(s, fields, items, keyed, positional).Ok?
    ensures Canonical(ReadEntries(s, fields, items, keyed, positional).value)
    ensures positional ==> ReadEntries(s, fields, items, keyed, positional).value.Arr?
    decreases |s|, 1
  {
    var s1 := SkipTrivia(s);
    if !Starts(s1, '}') {
      var entry := ReadAssignment(s1);
      if entry.Ok? {
        var r := ReadValue(SkipTrivia(entry.rest));
        ReadValueIsCanonical(SkipTrivia(entry.rest));
        PutKeepsCanonical(fields, entry.value, r.value);
        NextEntryIsCanonical(r.rest, Put(fields, entry.value, r.value), items, true, positional);
      } else {
        var r := ReadValue(s1);
        ReadValueIsCanonical(s1);
        NextEntryIsCanonical(r.rest, fields, items + [r.value], keyed, true);
      }
    }
  }

  lemma {:induction false} NextEntryIsCanonical(s: string, fields: seq<Field>, items: seq<Value>, keyed: bool,
                                                positional: bool)
    requires CanonicalFields(fields) && CanonicalItems(items) && (positional ==> items != [])
    requires NextEntry(s, fields, items, keyed, positional).Ok?
    ensures Canonical(NextEntry(s, fields, items, keyed, positional).value)
    ensures positional ==> NextEntry(s, fields, items, keyed, positional).value.Arr?
    decreases |s|, 2
  {
    var s1 := SkipTrivia(s);
    if Starts(s1, ',') || Starts(s1, ';') {
      ReadEntriesIsCanonical(s1[1..], fields, items, keyed, positional);
    } else {
      ReadEntriesIsCanonical(s1, fields, items, keyed, positional);
    }
  }

  lemma {:induction false} NormalizeFixes(v: Value)
    ensures Normalize(v) == v <==> !HasEmptyArray(v)
    decreases v, 1
  {
    match v
    case Arr(items) => if items != [] { NormalizeFixesItems(items); }
    case Obj(fields) => NormalizeFixesFields(fields);
    case _ =>
  }

  lemma {:induction false} NormalizeFixesItems(items: seq<Value>)
    ensures NormalizeItems(items) == items <==> forall i :: 0 <= i < |items| ==> !HasEmptyArray(items[i])
    decreases items, 0
  {
    if items != [] {
      NormalizeFixes(items[0]);
      NormalizeFixesItems(items[1..]);
      assert items == [items[0]] + items[1..];
      assert forall i :: 0 < i < |items| ==> items[i] == items[1..][i - 1];
      hide HasEmptyArray, Normalize;
    }
  }

  lemma {:induction false} NormalizeFixesFields(fields: seq<Field>)
    ensures NormalizeFields(fields) == fields <==> forall i :: 0 <= i < |fields| ==> !HasEmptyArray(fields[i].value)
    decreases fields, 0
  {
    if fields != [] {
      NormalizeFixes(fields[0].value);
      NormalizeFixesFields(fields[1..]);
      assert fields == [fields[0]] + fields[1..];
      assert forall i :: 0 < i < |fields| ==> fields[i] == fields[1..][i - 1];
      hide HasEmptyArray, Normalize;
    }
  }

  // ----- whole manifests -----

  /** Once an entry is positional the table can no longer read as an object. */
  lemma {:induction false} PositionalStays(s: string, fields: seq<Field>, items: seq<Value>, keyed: bool)
    ensures var r := ReadEntries(s, fields, items, keyed, true); r.Ok? ==> r.value.Arr?
    decreases |s|
  {
    var s1 := SkipTrivia(s);
    if !Starts(s1, '}') && ReadEntries(s, fields, items, keyed, true).Ok? {
      var entry := ReadAssignment(s1);
      var r := if entry.Ok? then ReadValue(SkipTrivia(entry.rest)) else ReadValue(s1);
      var s2 := SkipTrivia(r.rest);
      var next := if Starts(s2, '}') then s2 else s2[1..];
      if entry.Ok? {
        PositionalStays(next, Put(fields, entry.value, r.value), items, true);
      } else {
        PositionalStays(next, fields, items + [r.value], keyed);
      }
    }
  }

  /** The top-level loop agrees with the table reader on every table that reads as an object. */
  lemma {:induction false} DocumentIsTable(s: string, fields: seq<Field>, keyed: bool)
    requires var r := ReadEntries(s, fields, [], keyed, false); r.Ok? && r.value.Obj?
    ensures var r := ReadEntries(s, fields, [], keyed, false);
      ReadDocument(s, fields) == Document(r.value.fields, r.rest)
    decreases |s|
  {
    var s1 := SkipTrivia(s);
    if !Starts(s1, '}') {
      var entry := ReadAssignment(s1);
      var r := if entry.Ok? then ReadValue(SkipTrivia(entry.rest)) else ReadValue(s1);
      var s2 := SkipTrivia(r.rest);
      var next := if Starts(s2, '}') then s2 else s2[1..];
      if entry.Ok? {
        DocumentIsTable(next, Put(fields, entry.value, r.value), true);
      } else {
        assert [] + [r.value] == [r.value];
        PositionalStays(next, fields, [r.value], keyed);
        assert false;
      }
    }
  }

  /** Parsing a printed document runs the checks on its normal form: an empty array comes back as an
      empty object and everything else comes back unchanged. */
  lemma ManifestRoundTrip(fields: seq<Field>)
    requires WellFormed(Obj(fields))
    ensures Parse(SerializePackageManifest(Obj(fields))) == CheckDocument(NormalizeFields(fields))
  {
    hide Parse, SkipTrivia, ReadDocument, ReadEntries, SerializeFields, NormalizeFields, Close, CheckDocument,
      SerializePackageManifest;
    var table := "\n" + SerializeFields(fields, 4) + Close(0) + "\n";
    DocumentText(fields);
    assert [] + fields == fields;
    FieldsRoundTrip([], fields, 0, "\n");
    DocumentIsTable(table, [], false);
    ReturnKeyword(table);
    NewlineIsTrivia();
  }

  lemma NewlineIsTrivia()
    ensures SkipTrivia("\n") == ""
  {
    assert "\n"[1..] == "";
  }

  lemma CheckKeepsDocument(fields: seq<Field>)
    ensures CheckDocument(fields).Accepted? ==> CheckDocument(fields).document == fields
  {
  }

  lemma DocumentText(fields: seq<Field>)
    ensures SerializePackageManifest(Obj(fields)) == "return {" + ("\n" + SerializeFields(fields, 4) + Close(0) + "\n")
  {
    hide SerializeFields;
  }

  lemma ReturnKeyword(table: string)
    ensures Parse("return {" + table) == match ReadDocument(table, [])
      case DocumentError(error) => Rejected(error)
      case Document(fields, rest) => if SkipTrivia(rest) != [] then Rejected(TrailingContent) else CheckDocument(fields)
  {
    var text := "return {" + table;
    hide ReadDocument, CheckDocument;
    SkipNothing(text);
    assert text[6..] == " {" + table && "return" <= text;
    assert " {" + table == " " + ("{" + table);
    SkipBlank("{" + table);
    assert ("{" + table)[1..] == table;
  }

  lemma {:induction false} ReadDocumentIsCanonical(s: string, fields: seq<Field>)
    requires CanonicalFields(fields)
    ensures ReadDocument(s, fields).Document? ==> CanonicalFields(ReadDocument(s, fields).fields)
    decreases |s|
  {
    var s1 := SkipTrivia(s);
    if !Starts(s1, '}') && ReadDocument(s, fields).Document? {
      var key := ReadKey(s1);
      var after := SkipTrivia(key.rest);
      var r := ReadValue(SkipTrivia(after[1..]));
      ReadValueIsCanonical(SkipTrivia(after[1..]));
      PutKeepsCanonical(fields, key.value, r.value);
      var s2 := SkipTrivia(r.rest);
      ReadDocumentIsCanonical(if Starts(s2, '}') then s2 else s2[1..], Put(fields, key.value, r.value));
    }
  }

  lemma AcceptedIsCanonical(text: string)
    requires Parse(text).Accepted?
    ensures CanonicalFields(Parse(text).document) && CheckDocument(Parse(text).document) == Parse(text)
  {
    var s2 := SkipTrivia(AfterKeyword(SkipTrivia(text), "return").value);
    ReadDocumentIsCanonical(s2[1..], []);
    hide CanonicalFields, ReadDocument;
    assert Parse(text) == CheckDocument(ReadDocument(s2[1..], []).fields);
  }

  /** Printing what was parsed and parsing it again gives the same result, for every accepted text. */
  lemma ReprintIsStable(text: string)
    requires Parse(text).Accepted?
    ensures Parse(SerializePackageManifest(Obj(Parse(text).document))) == Parse(text)
  {
    var fields := Parse(text).document;
    AcceptedIsCanonical(text);
    assert WellFormed(Obj(fields));
    NormalizeFixesFields(fields);
    ManifestRoundTrip(fields);
  }

  /** A document with valid required fields survives printing and parsing exactly when it holds no
      empty array at any depth. */
  lemma DocumentSurvivesIff(fields: seq<Field>)
    requires WellFormed(Obj(fields)) && CheckDocument(fields).Accepted?
    ensures Parse(SerializePackageManifest(Obj(fields))) == CheckDocument(fields) <==> !HasEmptyArray(Obj(fields))
  {
    hide CheckDocument, Parse, SerializePackageManifest, NormalizeFields;
    ManifestRoundTrip(fields);
    NormalizeFixesFields(fields);
    CheckKeepsDocument(fields);
    CheckKeepsDocument(NormalizeFields(fields));
  }

  /** A document with an empty array: accepted before and after, and changed in between. */
  function WithFiles(files: Value): (r: seq<Field>) {
    [Field("files", files), Field("name", Str("a")), Field("version", Str("1"))]
  }

  lemma WithFilesIsChecked(files: Value)
    ensures CheckDocument(WithFiles(files)) == Accepted(WithFiles(files), PackageManifest("a", "1", None))
  {
    var fields := WithFiles(files);
    var two, one := fields[1..], fields[2..];
    assert two == [Field("name", Str("a")), Field("version", Str("1"))] && one == [Field("version", Str("1"))];
    assert two[1..] == one && one[1..] == [];
    assert "files" != "name" && "files" != "version" && "name" != "version";
    assert "files" != "implementation" && "name" != "implementation" && "version" != "implementation";
    assert Lookup(one, "version") == Some(Str("1")) && Lookup(one, "implementation") == None;
    assert Lookup(two, "name") == Some(Str("a")) && Lookup(two, "version") == Some(Str("1"));
    assert Lookup(two, "implementation") == None;
    assert Lookup(fields, "name") == Some(Str("a")) && Lookup(fields, "version") == Some(Str("1"));
    assert Lookup(fields, "implementation") == None;
  }

  lemma EmptyArrayIsLost()
    ensures var printed := SerializePackageManifest(Obj(WithFiles(Arr([]))));
      && Parse(printed) == Accepted(WithFiles(Obj([])), PackageManifest("a", "1", None))
      && CheckDocument(WithFiles(Arr([]))) == Accepted(WithFiles(Arr([])), PackageManifest("a", "1", None))
      && Parse(printed) != CheckDocument(WithFiles(Arr([])))
  {
    var fields := WithFiles(Arr([]));
    WithFilesIsChecked(Arr([]));
    WithFilesIsChecked(Obj([]));
    hide Parse, SerializePackageManifest, CheckDocument;
    assert Less("files", "name") && Less("files", "version") && Less("name", "version");
    assert WellFormed(Obj(fields));
    ManifestRoundTrip(fields);
    assert fields[1..] == [Field("name", Str("a")), Field("version", Str("1"))];
    assert fields[1..][1..] == [Field("version", Str("1"))] && fields[1..][1..][1..] == [];
    assert NormalizeFields(fields[1..][1..]) == [Field("version", Str("1"))];
    assert NormalizeFields(fields[1..]) == [Field("name", Str("a")), Field("version", Str("1"))];
    assert NormalizeFields(fields) == WithFiles(Obj([]));
    assert WithFiles(Obj([]))[0] != fields[0];
  }
}
