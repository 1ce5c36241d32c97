/** Manifest text: the recursive-descent parser of package.luau and the printer that must agree with it. */
module ManifestText {
  import opened Wrappers
  import opened Characters
  import opened StringOrder

  // ----- documents -----

  /** An object keeps its fields strictly sorted by key. */
  datatype Value =
    | Null
    | Bool(b: bool)
    | Int(n: int)
    | Str(s: string)
    | Arr(items: seq<Value>)
    | Obj(fields: seq<Field>)

  datatype Field = Field(key: string, value: Value)

  const INT64_MIN: int := -0x8000_0000_0000_0000
  const INT64_MAX: int := 0x7fff_ffff_ffff_ffff

  ghost predicate Sorted(fields: seq<Field>) {
    forall i, j :: 0 <= i < j < |fields| ==> Less(fields[i].key, fields[j].key)
  }

  ghost predicate WellFormed(v: Value) {
    match v
    case Int(n) => INT64_MIN <= n <= INT64_MAX
    case Arr(items) => forall i :: 0 <= i < |items| ==> WellFormed(items[i])
    case Obj(fields) => Sorted(fields) && forall i :: 0 <= i < |fields| ==> WellFormed(fields[i].value)
    case _ => true
  }

  /** The printed form of an empty array is the printed form of an empty object. */
  function Normalize(v: Value): (r: Value)
    decreases v, 1
  {
    match v
    case Arr(items) => if items == [] then Obj([]) else Arr(NormalizeItems(items))
    case Obj(fields) => Obj(NormalizeFields(fields))
    case _ => v
  }

  function NormalizeItems(items: seq<Value>): (r: seq<Value>)
    ensures |r| == |items|
    decreases items, 0
  {
    if items == [] then [] else [Normalize(items[0])] + NormalizeItems(items[1..])
  }

  function NormalizeFields(fields: seq<Field>): (r: seq<Field>)
    ensures |r| == |fields| && forall i :: 0 <= i < |r| ==> r[i].key == fields[i].key
    decreases fields, 0
  {
    if fields == [] then [] else [Field(fields[0].key, Normalize(fields[0].value))] + NormalizeFields(fields[1..])
  }

  ghost predicate HasEmptyArray(v: Value) {
    match v
    case Arr(items) => items == [] || exists i :: 0 <= i < |items| && HasEmptyArray(items[i])
    case Obj(fields) => exists i :: 0 <= i < |fields| && HasEmptyArray(fields[i].value)
    case _ => false
  }

  /** object[key] = value */
  function Put(fields: seq<Field>, key: string, value: Value): (r: seq<Field>) {
    if fields == [] then [Field(key, value)]
    else if fields[0].key == key then [Field(key, value)] + fields[1..]
    else if Less(key, fields[0].key) then [Field(key, value)] + fields
    else [fields[0]] + Put(fields[1..], key, value)
  }

  // ----- reading: every reader takes the remaining text and returns what is left of it -----

  datatype Read<+T> = Fail | Ok(value: T, rest: string)

  predicate Starts(s: string, c: char) { s != [] && s[0] == c }

  /** The text after the first "]]", if there is one. */
  function AfterBlockComment(s: string): (r: Option<string>)
    ensures r.Some? ==> |r.value| < |s|
  {
    if |s| < 2 then None
    else if s[0] == ']' && s[1] == ']' then Some(s[2..])
    else AfterBlockComment(s[1..])
  }

  function FromLineEnd(s: string): (r: string)
    ensures |r| <= |s|
  {
    if s == [] || s[0] == '\r' || s[0] == '\n' then s else FromLineEnd(s[1..])
  }

  function SkipTrivia(s: string): (r: string)
    ensures |r| <= |s|
    decreases |s|
  {
    if s == [] then []
    else if IsSpace(s[0]) then SkipTrivia(s[1..])
    else if |s| < 2 || s[0] != '-' || s[1] != '-' then s
    else if |s| >= 4 && s[2] == '[' && s[3] == '[' then
      var r := AfterBlockComment(s[4..]);
      if r.None? then [] else SkipTrivia(r.value)
    else SkipTrivia(FromLineEnd(s[2..]))
  }

  function AfterKeyword(s: string, keyword: string): (r: Option<string>)
    ensures r.Some? ==> |r.value| == |s| - |keyword|
  {
    if keyword <= s && (|s| == |keyword| || !IsIdentifierCharacter(s[|keyword|])) then Some(s[|keyword|..]) else None
  }

  function IdentifierLength(s: string): (n: nat)
    ensures n <= |s|
  {
    if s == [] || !IsIdentifierCharacter(s[0]) then 0 else 1 + IdentifierLength(s[1..])
  }

  function Unescape(c: char): (r: char) {
    match c
    case 'n' => '\n'
    case 'r' => '\r'
    case 't' => '\t'
    case _ => c
  }

  /** The rest of a string literal whose opening quote has been consumed. */
  function ReadQuoted(s: string, quote: char): (r: Read<string>)
    ensures r.Ok? ==> |r.rest| < |s|
  {
    if s == [] then Fail
    else if s[0] == quote then Ok("", s[1..])
    else if s[0] != '\\' then
      match ReadQuoted(s[1..], quote)
      case Fail => Fail
      case Ok(v, rest) => Ok([s[0]] + v, rest)
    else if |s| < 2 then Fail
    else
      match ReadQuoted(s[2..], quote)
      case Fail => Fail
      case Ok(v, rest) => Ok([Unescape(s[1])] + v, rest)
  }

  function ReadString(s: string): (r: Read<string>)
    ensures r.Ok? ==> |r.rest| < |s|
  {
    if Starts(s, '\'') || Starts(s, '"') then ReadQuoted(s[1..], s[0]) else Fail
  }

  function ReadKey(s: string): (r: Read<string>)
    ensures r.Ok? ==> |r.rest| < |s|
  {
    if s != [] && IsIdentifierStart(s[0]) then Ok(s[..IdentifierLength(s)], s[IdentifierLength(s)..])
    else if Starts(s, '[') then
      match ReadString(SkipTrivia(s[1..]))
      case Fail => Fail
      case Ok(key, rest) => var after := SkipTrivia(rest); if Starts(after, ']') then Ok(key, after[1..]) else Fail
    else Fail
  }

  /** A key followed by an equals sign, which is the lookahead that tells keyed entries from array entries. */
  function ReadAssignment(s: string): (r: Read<string>)
    ensures r.Ok? ==> |r.rest| < |s|
  {
    match ReadKey(s)
    case Fail => Fail
    case Ok(key, rest) => var after := SkipTrivia(rest); if Starts(after, '=') then Ok(key, after[1..]) else Fail
  }

  function TokenLength(s: string): (n: nat)
    ensures n <= |s|
  {
    if s == [] || IsSpace(s[0]) || s[0] == ',' || s[0] == ';' || s[0] == '}' then 0 else 1 + TokenLength(s[1..])
  }

  predicate AllDigits(s: string) {
    forall i :: 0 <= i < |s| ==> IsDigit(s[i])
  }

  function DigitsValue(s: string): (n: nat)
    requires AllDigits(s)
  {
    if s == [] then 0 else 10 * DigitsValue(s[..|s| - 1]) + (s[|s| - 1] as int - '0' as int)
  }

  /** The whole token as a signed 64-bit decimal. */
  function ParseInteger(token: string): (r: Option<int>)
    ensures r.Some? ==> INT64_MIN <= r.value <= INT64_MAX
  {
    var signed := Starts(token, '-') || Starts(token, '+');
    var digits := if signed then token[1..] else token;
    if digits == [] || !AllDigits(digits) then None else
      var n: int := if Starts(token, '-') then -(DigitsValue(digits) as int) else DigitsValue(digits);
      if INT64_MIN <= n <= INT64_MAX then Some(n) else None
  }

  function ReadScalar(s: string): (r: Read<Value>)
    ensures r.Ok? ==> |r.rest| < |s|
  {
    if AfterKeyword(s, "true").Some? then Ok(Bool(true), AfterKeyword(s, "true").value)
    else if AfterKeyword(s, "false").Some? then Ok(Bool(false), AfterKeyword(s, "false").value)
    else if AfterKeyword(s, "nil").Some? then Ok(Null, AfterKeyword(s, "nil").value)
    else
      var n := TokenLength(s);
      if n == 0 || ParseInteger(s[..n]).None? then Fail else Ok(Int(ParseInteger(s[..n]).value), s[n..])
  }

  function ReadValue(s: string): (r: Read<Value>)
    ensures r.Ok? ==> |r.rest| < |s|
    decreases |s|, 0
  {
    if Starts(s, '\'') || Starts(s, '"') then
      match ReadString(s)
      case Fail => Fail
      case Ok(v, rest) => Ok(Str(v), rest)
    else if Starts(s, '{') then ReadEntries(s[1..], [], [], false, false)
    else ReadScalar(s)
  }

  /** The entries of a table up to and including the closing brace. */
  function ReadEntries(s: string, fields: seq<Field>, items: seq<Value>, keyed: bool, positional: bool)
    : (r: Read<Value>)
    ensures r.Ok? ==> |r.rest| < |s|
    decreases |s|, 1
  {
    var s1 := SkipTrivia(s);
    if Starts(s1, '}') then
      if keyed && positional then Fail
      else Ok(if !positional || keyed then Obj(fields) else Arr(items), s1[1..])
    else
      match ReadAssignment(s1)
      case Ok(key, rest) =>
        (match ReadValue(SkipTrivia(rest))
         case Fail => Fail
         case Ok(v, after) => NextEntry(after, Put(fields, key, v), items, true, positional))
      case Fail =>
        (match ReadValue(s1)
         case Fail => Fail
         case Ok(v, after) => NextEntry(after, fields, items + [v], keyed, true))
  }

  /** After an entry: a separator, or the closing brace next. */
  function NextEntry(s: string, fields: seq<Field>, items: seq<Value>, keyed: bool, positional: bool): (r: Read<Value>)
    ensures r.Ok? ==> |r.rest| < |s|
    decreases |s|, 2
  {
    var s1 := SkipTrivia(s);
    if Starts(s1, ',') || Starts(s1, ';') then ReadEntries(s1[1..], fields, items, keyed, positional)
    else if Starts(s1, '}') then ReadEntries(s1, fields, items, keyed, positional)
    else Fail
  }

  // ----- printing -----

  function EscapeChar(c: char): (r: string) {
    match c
    case '\\' => "\\\\"
    case '"' => "\\\""
    case '\n' => "\\n"
    case '\r' => "\\r"
    case '\t' => "\\t"
    case _ => [c]
  }

  function EscapeAll(s: string): (r: string) {
    if s == [] then "" else EscapeChar(s[0]) + EscapeAll(s[1..])
  }

  function EscapeLuauString(s: string): (r: string) {
    "\"" + EscapeAll(s) + "\""
  }

  function PrintNat(n: nat): (r: string) {
    (if n < 10 then "" else PrintNat(n / 10)) + ["0123456789"[n % 10]]
  }

  function PrintInt(n: int): (r: string) {
    if n < 0 then "-" + PrintNat(-n) else PrintNat(n)
  }

  function SerializeValue(v: Value, indent: nat): (r: string)
    decreases v, 1
  {
    match v
    case Obj(fields) => "{\n" + SerializeFields(fields, indent + 4) + "\n" + Spaces(indent) + "}"
    case Arr(items) => "{\n" + SerializeItems(items, indent + 4) + "\n" + Spaces(indent) + "}"
    case Str(s) => EscapeLuauString(s)
    case Bool(b) => if b then "true" else "false"
    case Null => "nil"
    case Int(n) => PrintInt(n)
  }

  function SerializeFields(fields: seq<Field>, indent: nat): (r: string)
    decreases fields, 0
  {
    if fields == [] then "" else
      Spaces(indent) + "[" + EscapeLuauString(fields[0].key) + "] = " + SerializeValue(fields[0].value, indent) +
      (if |fields| > 1 then ",\n" + SerializeFields(fields[1..], indent) else "")
  }

  function SerializeItems(items: seq<Value>, indent: nat): (r: string)
    decreases items, 0
  {
    if items == [] then "" else
      Spaces(indent) + SerializeValue(items[0], indent) +
      (if |items| > 1 then ",\n" + SerializeItems(items[1..], indent) else "")
  }

  /** The printed manifest; anything but an object prints as nothing. */
  function SerializePackageManifest(document: Value): (r: string) {
    if document.Obj? then "return " + SerializeValue(document, 0) + "\n" else ""
  }

  // ----- whole manifests -----

  datatype Implementation = Implementation(artifact: string, layout: string, required: bool)

  datatype PackageManifest = PackageManifest(name: string, version: string, implementation: Option<Implementation>)

  datatype ManifestError =
    | MustStartWithReturn
    | MustReturnTable
    | InvalidKey
    | MissingEquals
    | InvalidValue(key: string)
    | MissingSeparator
    | TrailingContent
    | FieldNotAString(key: string)
    | FieldIsEmpty(key: string)
    | ImplementationNotATable
    | ImplementationFieldType(key: string)

  datatype ManifestResult = Rejected(error: ManifestError) | Accepted(document: seq<Field>, manifest: PackageManifest)

  datatype DocumentRead = DocumentError(error: ManifestError) | Document(fields: seq<Field>, rest: string)

  function Lookup(fields: seq<Field>, key: string): (r: Option<Value>) {
    if fields == [] then None else if fields[0].key == key then Some(fields[0].value) else Lookup(fields[1..], key)
  }

  /** The top-level loop: keyed entries only. */
  function ReadDocument(s: string, fields: seq<Field>): (r: DocumentRead)
    ensures r.Document? ==> |r.rest| < |s|
    decreases |s|
  {
    var s1 := SkipTrivia(s);
    if Starts(s1, '}') then Document(fields, s1[1..])
    else
      match ReadKey(s1)
      case Fail => DocumentError(InvalidKey)
      case Ok(key, rest) =>
        var after := SkipTrivia(rest);
        if !Starts(after, '=') then DocumentError(MissingEquals) else
          match ReadValue(SkipTrivia(after[1..]))
          case Fail => DocumentError(InvalidValue(key))
          case Ok(v, more) =>
            var s2 := SkipTrivia(more);
            if Starts(s2, ',') || Starts(s2, ';') then ReadDocument(s2[1..], Put(fields, key, v))
            else if Starts(s2, '}') then ReadDocument(s2, Put(fields, key, v))
            else DocumentError(MissingSeparator)
  }

  function StringField(fields: seq<Field>, key: string): (r: Option<string>) {
    var v := Lookup(fields, key);
    if v.Some? && v.value.Str? then Some(v.value.s) else None
  }

  function ReadImplementation(name: string, fields: seq<Field>): (r: Option<Implementation>) {
    var artifact, layout, required := Lookup(fields, "artifact"), Lookup(fields, "layout"), Lookup(fields, "required");
    if (artifact.Some? && !artifact.value.Str?) || (layout.Some? && !layout.value.Str?) ||
      (required.Some? && !required.value.Bool?) then None
    else
      var stated := if artifact.Some? then artifact.value.s else "";
      Some(Implementation(
        if stated == "" then name else stated,
        if layout.Some? then layout.value.s else "",
        required.Some? && required.value.b))
  }

  function BadImplementationField(fields: seq<Field>): (r: string) {
    if Lookup(fields, "artifact").Some? && !Lookup(fields, "artifact").value.Str? then "artifact"
    else if Lookup(fields, "layout").Some? && !Lookup(fields, "layout").value.Str? then "layout"
    else "required"
  }

  /** The checks on a parsed document, in their order. */
  function CheckDocument(fields: seq<Field>): (r: ManifestResult) {
    var name, version := StringField(fields, "name"), StringField(fields, "version");
    if name.None? then Rejected(FieldNotAString("name"))
    else if version.None? then Rejected(FieldNotAString("version"))
    else if name.value == "" then Rejected(FieldIsEmpty("name"))
    else if version.value == "" then Rejected(FieldIsEmpty("version"))
    else
      match Lookup(fields, "implementation")
      case None => Accepted(fields, PackageManifest(name.value, version.value, None))
      case Some(Obj(inner)) =>
        var implementation := ReadImplementation(name.value, inner);
        if implementation.None? then Rejected(ImplementationFieldType(BadImplementationField(inner)))
        else Accepted(fields, PackageManifest(name.value, version.value, implementation))
      case Some(_) => Rejected(ImplementationNotATable)
  }

  function Parse(s: string): (r: ManifestResult) {
    var s1 := AfterKeyword(SkipTrivia(s), "return");
    if s1.None? then Rejected(MustStartWithReturn) else
      var s2 := SkipTrivia(s1.value);
      if !Starts(s2, '{') then Rejected(MustReturnTable) else
        match ReadDocument(s2[1..], [])
        case DocumentError(error) => Rejected(error)
        case Document(fields, rest) => if SkipTrivia(rest) != [] then Rejected(TrailingContent)
          else CheckDocument(fields)
  }
}
