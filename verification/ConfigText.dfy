/** The scanner and the inserter for the alias table of .config.luau, on what is left of the text. */
module ConfigText {
  import opened Wrappers
  import opened Characters

  predicate IsQuote(c: char) {
    c == '\'' || c == '"'
  }

  // ----- white space and comments -----

  /** What follows the first "]]", or nothing. */
  function AfterBlock(s: string): (r: string)
    ensures |r| <= |s|
  {
    if |s| < 2 then [] else if s[0] == ']' && s[1] == ']' then s[2..] else AfterBlock(s[1..])
  }

  /** From the next line break on. */
  function FromLineBreak(s: string): (r: string)
    ensures |r| <= |s|
  {
    if s == [] || s[0] == '\r' || s[0] == '\n' then s else FromLineBreak(s[1..])
  }

  predicate CommentStarts(s: string) {
    |s| >= 2 && s[0] == '-' && s[1] == '-'
  }

  predicate BlockStarts(s: string) {
    |s| >= 2 && s[0] == '[' && s[1] == '['
  }

  function SkipComment(s: string): (r: string)
    requires CommentStarts(s)
    ensures |r| < |s|
  {
    if BlockStarts(s[2..]) then AfterBlock(s[4..]) else FromLineBreak(s[2..])
  }

  function Skip(s: string): (r: string)
    ensures |r| <= |s|
    decreases |s|
  {
    if s == [] then s
    else if IsSpace(s[0]) then Skip(s[1..])
    else if CommentStarts(s) then Skip(SkipComment(s))
    else s
  }

  // ----- quoted strings -----

  /** The rest behind a quoted string; not ok when it does not end. */
  datatype Skipped = Skipped(ok: bool, rest: string)

  function SkipBody(s: string, quote: char): (r: Skipped)
    ensures |r.rest| <= |s|
    decreases |s|
  {
    if s == [] then Skipped(false, s)
    else if s[0] == '\\' then SkipBody(if |s| >= 2 then s[2..] else [], quote)
    else if s[0] == quote then Skipped(true, s[1..])
    else SkipBody(s[1..], quote)
  }

  function SkipQuoted(s: string): (r: Skipped)
    ensures |r.rest| <= |s|
    ensures s != [] && IsQuote(s[0]) ==> |r.rest| < |s|
  {
    if s == [] || !IsQuote(s[0]) then Skipped(false, s) else SkipBody(s[1..], s[0])
  }

  datatype Quoted = Quoted(ok: bool, value: string, rest: string)

  function Unescaped(c: char): (r: char) {
    if c == 'n' then '\n' else if c == 'r' then '\r' else if c == 't' then '\t' else c
  }

  function ReadBody(s: string, quote: char, done: string): (r: Quoted)
    ensures |r.rest| <= |s|
    decreases |s|
  {
    if s == [] then Quoted(false, done, s)
    else if s[0] == quote then Quoted(true, done, s[1..])
    else if s[0] != '\\' then ReadBody(s[1..], quote, done + [s[0]])
    else if |s| < 2 then Quoted(false, done, [])
    else ReadBody(s[2..], quote, done + [Unescaped(s[1])])
  }

  function ReadQuoted(s: string): (r: Quoted)
    ensures |r.rest| <= |s| && (r.ok ==> |r.rest| < |s|)
  {
    if s == [] || !IsQuote(s[0]) then Quoted(false, [], s) else ReadBody(s[1..], s[0], [])
  }

  // ----- the alias table -----

  /** Everything from the opening brace on, and everything from the closing brace on. */
  datatype Place = Place(open: string, close: string)

  /** The part of an identifier that stands before the last n characters of the text. */
  function Identifier(s: string, n: nat): (r: string)
    ensures |r| <= |s|
  {
    if |s| <= n || s == [] || !IsIdentifierCharacter(s[0]) then [] else [s[0]] + Identifier(s[1..], n)
  }

  function FindClose(s: string, depth: nat): (r: Option<string>)
    ensures r.Some? ==> |r.value| <= |s|
    decreases |s|
  {
    if s == [] || depth == 0 then None
    else if CommentStarts(s) then FindClose(Skip(SkipComment(s)), depth)
    else if IsQuote(s[0]) then if SkipQuoted(s).ok then FindClose(SkipQuoted(s).rest, depth) else None
    else if s[0] == '{' then FindClose(s[1..], depth + 1)
    else if s[0] == '}' && depth == 1 then Some(s)
    else FindClose(s[1..], if s[0] == '}' then depth - 1 else depth)
  }

  /** Behind the name of the table: an equals sign and an opening brace. */
  function TableBody(s: string): (r: Option<string>)
    ensures r.Some? ==> 0 < |r.value| <= |s|
  {
    var a := Skip(s);
    if a == [] || a[0] != '=' then None
    else
      var b := Skip(a[1..]);
      if b == [] || b[0] != '{' then None else Some(b)
  }

  function FindTable(s: string): (r: Option<Place>)
    decreases |s|
  {
    var t := Skip(s);
    if t == [] then None
    else if IsQuote(t[0]) then FindTable(SkipQuoted(t).rest)
    else if !IsIdentifierStart(t[0]) then FindTable(t[1..])
    else
      var word := Identifier(t, 0);
      assert |word| > 0;
      var body := TableBody(t[|word|..]);
      if word != "aliases" || body.None? then FindTable(t[|word|..])
      else
        match FindClose(body.value[1..], 1)
        case None => None
        case Some(close) => Some(Place(body.value, close))
  }

  // ----- looking up an alias -----

  datatype Existing = Existing(value: string, isString: bool)

  function Tail(s: string): (r: string)
    ensures |r| <= |s| && (s != [] ==> |r| < |s|)
  {
    if s == [] then s else s[1..]
  }

  /** Behind a brace that opens inside the table, up to the one that closes it. */
  function SkipNested(s: string, n: nat, depth: nat): (r: string)
    ensures |r| <= |s|
    decreases |s|
  {
    if |s| <= n || s == [] || depth == 0 then s
    else if IsQuote(s[0]) then SkipNested(SkipQuoted(s).rest, n, depth)
    else if s[0] == '{' then SkipNested(s[1..], n, depth + 1)
    else if s[0] == '}' then SkipNested(s[1..], n, depth - 1)
    else SkipNested(s[1..], n, depth)
  }

  /** To the next comma, or to the end of the table. */
  function SkipValue(s: string, n: nat): (r: string)
    ensures |r| <= |s|
  {
    if |s| <= n || s == [] || s[0] == ',' then s else SkipValue(s[1..], n)
  }

  /** A key of the table and what follows it; NoKey carries on behind something else. */
  datatype KeyRead = Key(key: string, rest: string) | NoKey(rest: string)

  function ReadKey(s: string, n: nat): (r: KeyRead)
    requires |s| > n
    ensures |r.rest| < |s|
  {
    if IsIdentifierStart(s[0]) then
      var word := [s[0]] + Identifier(s[1..], n);
      Key(word, s[|word|..])
    else if s[0] == '[' then
      var q := ReadQuoted(Skip(s[1..]));
      if !q.ok then NoKey(Tail(q.rest))
      else
        var t := Skip(q.rest);
        if |t| <= n then NoKey(t) else if t[0] != ']' then NoKey(t[1..]) else Key(q.value, t[1..])
    else if s[0] == '{' then NoKey(SkipNested(s[1..], n, 1))
    else NoKey(s[1..])
  }

  function ReadValue(s: string, n: nat): (r: (Existing, string))
    ensures |r.1| <= |s|
  {
    if s != [] && IsQuote(s[0]) then
      var q := ReadQuoted(s);
      (Existing(q.value, q.ok), q.rest)
    else (Existing([], false), SkipValue(s, n))
  }

  /** The first entry for this alias before the last n characters of the text. */
  function FindAlias(s: string, n: nat, wanted: string): (r: Option<Existing>)
    decreases |s|
  {
    if |s| <= n then None
    else
      var t := Skip(s);
      if |t| <= n then None
      else
        match ReadKey(t, n)
        case NoKey(rest) => FindAlias(rest, n, wanted)
        case Key(key, rest) =>
          var u := Skip(rest);
          if |u| <= n then FindAlias(u, n, wanted)
          else if u[0] != '=' then FindAlias(u[1..], n, wanted)
          else
            var v := ReadValue(Skip(u[1..]), n);
            if key == wanted then Some(v.0) else FindAlias(v.1, n, wanted)
  }

  /** That search, before it returns, looks for a value where the text has ended. */
  predicate Overruns(s: string, n: nat, wanted: string)
    decreases |s|
  {
    var t := Skip(s);
    |t| > n &&
    match ReadKey(t, n)
    case NoKey(rest) => Overruns(rest, n, wanted)
    case Key(key, rest) =>
      var u := Skip(rest);
      |u| > n &&
      if u[0] != '=' then Overruns(u[1..], n, wanted)
      else
        var value := Skip(u[1..]);
        value == [] || (key != wanted && Overruns(ReadValue(value, n).1, n, wanted))
  }

  // ----- updating -----

  datatype Alias = Alias(name: string, path: string)

  function Escape(s: string): (r: string) {
    if s == [] then []
    else Escape(s[..|s| - 1]) + (if s[|s| - 1] == '\\' || s[|s| - 1] == '"' then "\\" else "") + [s[|s| - 1]]
  }

  function Entry(a: Alias): (r: string) {
    "[\"" + Escape(a.name) + "\"] = \"" + Escape(a.path) + "\","
  }

  function Lines(indent: string, newline: string, aliases: seq<Alias>): (r: string) {
    if aliases == [] then []
    else Lines(indent, newline, aliases[..|aliases| - 1]) + (indent + Entry(aliases[|aliases| - 1]) + newline)
  }

  function OneLine(aliases: seq<Alias>): (r: string) {
    if aliases == [] then [] else OneLine(aliases[..|aliases| - 1]) + (Entry(aliases[|aliases| - 1]) + " ")
  }

  datatype Check = Unsafe | Conflict | Present | New

  /** How one alias relates to the table. */
  function CheckAlias(safePath: string -> bool, place: Place, a: Alias): (r: Check)
    requires place.open != []
  {
    if !IsSafeName(a.name) || !safePath(a.path) then Unsafe
    else
      match FindAlias(place.open[1..], |place.close|, a.name)
      case None => New
      case Some(existing) => if existing.isString && existing.value == a.path then Present else Conflict
  }

  function Additions(safePath: string -> bool, place: Place, aliases: seq<Alias>): (r: seq<Alias>)
    requires place.open != []
  {
    if aliases == [] then []
    else
      var last := aliases[|aliases| - 1];
      Additions(safePath, place, aliases[..|aliases| - 1]) + if CheckAlias(safePath, place, last).New? then [last]
        else []
  }

  predicate Acceptable(safePath: string -> bool, place: Place, aliases: seq<Alias>)
    requires place.open != []
  {
    forall i :: 0 <= i < |aliases| ==>
      CheckAlias(safePath, place, aliases[i]).Present? || CheckAlias(safePath, place, aliases[i]).New?
  }

  // ----- inserting -----

  predicate HasReturnNewline(s: string) {
    exists i :: 0 <= i < |s| - 1 && s[i] == '\r' && s[i + 1] == '\n'
  }

  predicate HasNewline(s: string) {
    exists i :: 0 <= i < |s| && s[i] == '\n'
  }

  /** Where the white space before position i begins, not going below low. */
  function TrimEnd(s: string, low: nat, i: nat): (r: nat)
    requires i <= |s|
    ensures r <= i && (low <= i ==> low <= r)
    decreases i
  {
    if i > low && IsSpace(s[i - 1]) then TrimEnd(s, low, i - 1) else i
  }

  /** The beginning of the line that position i is on. */
  function LineStart(s: string, i: nat): (r: nat)
    requires i < |s|
    ensures r <= i + 1
    decreases i
  {
    if s[i] == '\n' then i + 1 else if i == 0 then 0 else LineStart(s, i - 1)
  }

  function Indentation(s: string): (r: string) {
    if s == [] || (s[0] != ' ' && s[0] != '\t') then [] else [s[0]] + Indentation(s[1..])
  }

  /** The text with a comma behind the last entry of the table, unless it has one. */
  function WithComma(text: string, open: nat, close: nat): (r: string)
    requires open < close < |text|
    ensures |text| <= |r|
  {
    var last := TrimEnd(text, open + 1, close);
    if last > open + 1 && text[last - 1] != ',' then text[..last] + "," + text[last..] else text
  }

  function Insert(text: string, open: nat, close: nat, additions: seq<Alias>): (r: string)
    requires open < close < |text|
  {
    var content := WithComma(text, open, close);
    if !HasNewline(text[open..close]) then
      var at := close + (|content| - |text|);
      content[..at] + OneLine(additions) + content[at..]
    else
      var indent := Indentation(text[LineStart(text, close)..]) + "    ";
      var at := LineStart(content, close);
      content[..at] + Lines(indent, if HasReturnNewline(text) then "\r\n" else "\n", additions) + content[at..]
  }

  datatype Update = Updated(content: string, changed: bool) | Refused

  function UpdateAliases(safePath: string -> bool, text: string, aliases: seq<Alias>): (r: Update) {
    if aliases == [] then Updated(text, false)
    else
      match FindTable(text)
      case None => Refused
      case Some(place) =>
        FindTableFits(text);
        var open, close := |text| - |place.open|, |text| - |place.close|;
        var additions := Additions(safePath, place, aliases);
        if !Acceptable(safePath, place, aliases) then Refused
        else if additions == [] then Updated(text, false)
        else Updated(Insert(text, open, close, additions), true)
  }

  lemma {:induction false} FindCloseFits(s: string, depth: nat)
    ensures FindClose(s, depth).Some? ==> 0 < |FindClose(s, depth).value| <= |s|
    decreases |s|
  {
    if s == [] || depth == 0 {
    } else if CommentStarts(s) {
      FindCloseFits(Skip(SkipComment(s)), depth);
    } else if IsQuote(s[0]) {
      FindCloseFits(SkipQuoted(s).rest, depth);
    } else if s[0] == '{' {
      FindCloseFits(s[1..], depth + 1);
    } else if s[0] == '}' && depth == 1 {
    } else {
      FindCloseFits(s[1..], if s[0] == '}' then depth - 1 else depth);
    }
  }

  lemma {:induction false} FindTableFits(s: string)
    ensures FindTable(s).Some? ==>
      var p := FindTable(s).value; 0 < |p.close| < |p.open| <= |s|
    decreases |s|
  {
    var t := Skip(s);
    if t == [] {
    } else if IsQuote(t[0]) {
      FindTableFits(SkipQuoted(t).rest);
    } else if !IsIdentifierStart(t[0]) {
      FindTableFits(t[1..]);
    } else {
      var word := Identifier(t, 0);
      var body := TableBody(t[|word|..]);
      if word != "aliases" || body.None? {
        FindTableFits(t[|word|..]);
      } else {
        FindCloseFits(body.value[1..], 1);
      }
    }
  }

  // ----- generated configurations -----

  function Opening(): (r: string) {
    "return {\n" + Spaces(4) + "luau = {\n" + Spaces(8) + "aliases = {\n"
  }

  function Closing(): (r: string) {
    "}\n" + Spaces(4) + "}\n}\n"
  }

  /** A configuration that binds exactly these aliases. */
  function Generated(aliases: seq<Alias>): (r: string) {
    Opening() + Lines(Spaces(12), "\n", aliases) + Spaces(8) + Closing()
  }
}
