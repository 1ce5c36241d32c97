/** Writing Lua values as JSON events, under the writer's own limits, and reading them back. */
module JsonWriter {
  import opened Wrappers
  import opened Json

  /** What the virtual machine tells about a table: a border, which is its length, and its string
      keys in some order. */
  datatype Enumeration = Enumeration(border: map<Key, Value> -> nat, names: map<Key, Value> -> seq<string>)

  ghost predicate IsBorder(m: map<Key, Value>, n: nat) {
    (n == 0 || Index(n) in m) && Index(n + 1) !in m
  }

  ghost predicate ListsNames(m: map<Key, Value>, names: seq<string>) {
    && (forall s :: s in names <==> Name(s) in m)
    && forall i, j :: 0 <= i < j < |names| ==> names[i] != names[j]
  }

  ghost predicate Lawful(en: Enumeration) {
    forall m: map<Key, Value> :: IsBorder(m, en.border(m)) && ListsNames(m, en.names(m))
  }

  function Digit(d: nat): (c: char)
    requires d < 10
  {
    "0123456789"[d]
  }

  function Decimal(n: nat): (s: string) {
    if n < 10 then [Digit(n)] else Decimal(n / 10) + [Digit(n % 10)]
  }

  // ----- the tree that is written -----

  function Item(v: Value, i: nat): (r: Value)
    requires v.Table?
    ensures !r.Nil? ==> Index(i) in v.entries && r == v.entries[Index(i)]
  {
    if Index(i) in v.entries then v.entries[Index(i)] else Nil
  }

  function Field(v: Value, name: string): (r: Value)
    requires v.Table?
    ensures !r.Nil? ==> Name(name) in v.entries && r == v.entries[Name(name)]
  {
    if Name(name) in v.entries then v.entries[Name(name)] else Nil
  }

  /** A list without string keys is an array, everything else an object whose list part is keyed by
      decimal numbers; nothing is written for a list with holes. */
  function ToTree(en: Enumeration, v: Value): (r: Option<Tree>)
    decreases v, 2, 0
  {
    match v
    case Nil => Some(Scalar(Nil))
    case Atom(_) => Some(Scalar(v))
    case Opaque => None
    case Table(m) =>
      var size := en.border(m);
      if en.names(m) == [] && size > 0 then
        var items := ItemsFrom(en, v, 1, size);
        if items.None? then None else Some(Array(items.value))
      else
        var items := ItemsFrom(en, v, 1, size);
        var members := MembersFrom(en, v, en.names(m));
        if items.None? || members.None? then None
        else Some(Object(Numbered(items.value, 1) + members.value))
  }

  function ItemsFrom(en: Enumeration, v: Value, i: nat, size: nat): (r: Option<seq<Tree>>)
    requires v.Table?
    ensures r.Some? && i <= size ==> |r.value| == size - i + 1
    decreases v, 1, if i <= size then size - i + 1 else 0
  {
    if i > size then Some([])
    else
      var item := Item(v, i);
      if item.Nil? then None
      else
        var first, rest := ToTree(en, item), ItemsFrom(en, v, i + 1, size);
        if first.None? || rest.None? then None else Some([first.value] + rest.value)
  }

  function MembersFrom(en: Enumeration, v: Value, names: seq<string>): (r: Option<seq<Member>>)
    requires v.Table?
    decreases v, 1, |names|
  {
    if names == [] then Some([])
    else
      var field := Field(v, names[0]);
      if field.Nil? then MembersFrom(en, v, names[1..])
      else
        var first, rest := ToTree(en, field), MembersFrom(en, v, names[1..]);
        if first.None? || rest.None? then None else Some([Member(names[0], first.value)] + rest.value)
  }

  /** List items as members keyed by their number. */
  function Numbered(items: seq<Tree>, i: nat): (r: seq<Member>) {
    if items == [] then [] else [Member(Decimal(i), items[0])] + Numbered(items[1..], i + 1)
  }

  // ----- the writer's limits -----

  /** Values only: the writer does not count keys. */
  function Count(t: Tree): (n: nat)
    ensures n > 0
  {
    match t
    case Scalar(_) => 1
    case Array(items) => 1 + CountOfItems(items)
    case Object(members) => 1 + CountOfMembers(members)
  }

  function CountOfItems(items: seq<Tree>): (n: nat) {
    if items == [] then 0 else Count(items[0]) + CountOfItems(items[1..])
  }

  function CountOfMembers(members: seq<Member>): (n: nat) {
    if members == [] then 0 else Count(members[0].value) + CountOfMembers(members[1..])
  }

  /** Levels of values, the innermost scalars included. */
  function Levels(t: Tree): (n: nat)
    ensures n > 0
  {
    match t
    case Scalar(_) => 1
    case Array(items) => 1 + LevelsOfItems(items)
    case Object(members) => 1 + LevelsOfMembers(members)
  }

  function LevelsOfItems(items: seq<Tree>): (n: nat) {
    if items == [] then 0 else Max(Levels(items[0]), LevelsOfItems(items[1..]))
  }

  function LevelsOfMembers(members: seq<Member>): (n: nat) {
    if members == [] then 0 else Max(Levels(members[0].value), LevelsOfMembers(members[1..]))
  }

  /** The reader's measures are bounded by the writer's: the same depth, and at most twice the nodes. */
  lemma {:induction false} ReaderMeasures(t: Tree)
    ensures Depth(t) <= Levels(t) && Nodes(t) < 2 * Count(t)
    decreases t, 1
  {
    match t
    case Scalar(_) =>
    case Array(items) => ReaderMeasuresOfItems(items);
    case Object(members) => ReaderMeasuresOfMembers(members);
  }

  lemma {:induction false} ReaderMeasuresOfItems(items: seq<Tree>)
    ensures DepthOfItems(items) <= LevelsOfItems(items) && NodesOfItems(items) <= 2 * CountOfItems(items)
    decreases items, 0
  {
    if items != [] {
      ReaderMeasures(items[0]);
      ReaderMeasuresOfItems(items[1..]);
    }
  }

  lemma {:induction false} ReaderMeasuresOfMembers(members: seq<Member>)
    ensures DepthOfMembers(members) <= LevelsOfMembers(members)
    ensures NodesOfMembers(members) <= 2 * CountOfMembers(members)
    decreases members, 0
  {
    if members != [] {
      ReaderMeasures(members[0].value);
      ReaderMeasuresOfMembers(members[1..]);
    }
  }

  // ----- values that read back as themselves -----

  ghost predicate PureArray(m: map<Key, Value>, n: nat) {
    forall k :: k in m <==> k.Index? && 1 <= k.n <= n
  }

  ghost predicate PureObject(m: map<Key, Value>) {
    forall k :: k in m ==> k.Name?
  }

  /** Nil, scalars, and tables that are a list or a record all the way down. */
  ghost predicate Pure(v: Value) {
    match v
    case Nil => true
    case Atom(_) => true
    case Opaque => false
    case Table(m) =>
      && (PureObject(m) || exists n: nat :: PureArray(m, n))
      && forall k :: k in m ==> !m[k].Nil? && Pure(m[k])
  }

  lemma {:induction false} BuildItemsIs(entries: map<Key, Value>, index: nat, items: seq<Tree>)
    requires forall k :: 0 <= k < |items| ==> !Build(items[k]).Nil?
    ensures var r := BuildItems(entries, index, items);
      && (forall key :: key in r <==> key in entries || (key.Index? && index < key.n <= index + |items|))
      && (forall k :: 0 <= k < |items| ==> r[Index(index + 1 + k)] == Build(items[k]))
      && forall key :: key in entries && !(key.Index? && index < key.n <= index + |items|) ==> r[key] == entries[key]
    decreases |items|
  {
    hide Build;
    if items != [] {
      var next := Put(entries, Index(index + 1), Build(items[0]));
      forall k | 0 <= k < |items| - 1 ensures !Build(items[1..][k]).Nil? {
        assert items[1..][k] == items[k + 1];
      }
      BuildItemsIs(next, index + 1, items[1..]);
      var r := BuildItems(entries, index, items);
      forall k | 0 <= k < |items| ensures r[Index(index + 1 + k)] == Build(items[k]) {
        if k > 0 {
          assert items[1..][k - 1] == items[k] && Index(index + 1 + 1 + (k - 1)) == Index(index + 1 + k);
        }
      }
    }
  }

  lemma {:induction false} BuildMembersIs(entries: map<Key, Value>, members: seq<Member>)
    requires forall k :: 0 <= k < |members| ==> !Build(members[k].value).Nil?
    requires forall i, j :: 0 <= i < j < |members| ==> members[i].key != members[j].key
    ensures var r := BuildMembers(entries, members);
      && (forall key :: key in r <==> key in entries || exists k :: 0 <= k < |members| && key == Name(members[k].key))
      && (forall k :: 0 <= k < |members| ==>
            Name(members[k].key) in r && r[Name(members[k].key)] == Build(members[k].value))
      && forall key :: key in entries && (forall k :: 0 <= k < |members| ==> key != Name(members[k].key)) ==>
           r[key] == entries[key]
    decreases |members|
  {
    hide Build;
    if members != [] {
      var rest := members[1..];
      assert forall k :: 0 <= k < |rest| ==> rest[k] == members[k + 1];
      var next := Put(entries, Name(members[0].key), Build(members[0].value));
      BuildMembersIs(next, rest);
      var r := BuildMembers(entries, members);
      forall k | 0 <= k < |members| ensures Name(members[k].key) in r &&
        r[Name(members[k].key)] == Build(members[k].value) {
        if k > 0 {
          assert r == BuildMembers(next, rest) && rest[k - 1] == members[k];
          assert Name(rest[k - 1].key) in r && r[Name(rest[k - 1].key)] == Build(rest[k - 1].value);
        } else {
          forall j | 0 <= j < |rest| ensures Name(members[0].key) != Name(rest[j].key) {
            assert rest[j] == members[j + 1];
          }
          assert Name(members[0].key) in next && next[Name(members[0].key)] == Build(members[0].value);
          assert r == BuildMembers(next, rest);
        }
      }
      forall key ensures key in r <==> key in entries || exists k :: 0 <= k < |members| && key == Name(members[k].key) {
        assert r == BuildMembers(next, rest);
        if k :| 0 <= k < |members| && key == Name(members[k].key) {
          assert k > 0 ==> rest[k - 1] == members[k];
        } else {
          assert key != Name(members[0].key);
          forall k | 0 <= k < |rest| ensures key != Name(rest[k].key) {
            assert rest[k] == members[k + 1];
          }
        }
      }
    }
  }

  /** What ItemsFrom yields of a pure list. */
  lemma {:induction false} PureItems(en: Enumeration, v: Value, n: nat, i: nat)
    requires Lawful(en) && v.Table? && Pure(v) && PureArray(v.entries, n) && 1 <= i <= n + 1
    ensures var r := ItemsFrom(en, v, i, n);
      && r.Some? && |r.value| == n + 1 - i
      && forall k :: 0 <= k < |r.value| ==> Index(i + k) in v.entries && Build(r.value[k]) == v.entries[Index(i + k)]
    decreases v, 1, n + 1 - i
  {
    hide Lawful, Build;
    if i <= n {
      assert Index(i) in v.entries;
      PureWrites(en, v.entries[Index(i)]);
      PureItems(en, v, n, i + 1);
      var r, rest := ItemsFrom(en, v, i, n), ItemsFrom(en, v, i + 1, n);
      assert r.value == [r.value[0]] + rest.value;
      forall k | 0 <= k < |r.value| ensures Index(i + k) in v.entries && Build(r.value[k]) == v.entries[Index(i + k)] {
        if k > 0 {
          assert r.value[k] == rest.value[k - 1] && Index(i + 1 + (k - 1)) == Index(i + k);
        }
      }
    }
  }

  lemma {:induction false} PureMembers(en: Enumeration, v: Value, names: seq<string>)
    requires Lawful(en) && v.Table? && Pure(v) && forall k :: 0 <= k < |names| ==> Name(names[k]) in v.entries
    ensures var r := MembersFrom(en, v, names);
      && r.Some? && |r.value| == |names|
      && forall k :: 0 <= k < |names| ==>
           r.value[k].key == names[k] && Build(r.value[k].value) == v.entries[Name(names[k])]
    decreases v, 1, |names|
  {
    hide Lawful, Build;
    if names != [] {
      assert Name(names[0]) in v.entries;
      PureWrites(en, v.entries[Name(names[0])]);
      forall k | 0 <= k < |names| - 1 ensures Name(names[1..][k]) in v.entries {
        assert names[1..][k] == names[k + 1];
      }
      PureMembers(en, v, names[1..]);
      var r, rest := MembersFrom(en, v, names), MembersFrom(en, v, names[1..]);
      forall k | 0 <= k < |names| ensures r.value[k].key == names[k] &&
        Build(r.value[k].value) == v.entries[Name(names[k])] {
        if k > 0 {
          assert names[1..][k - 1] == names[k] && r.value[k] == rest.value[k - 1];
        }
      }
    }
  }

  /** A pure value is written as a tree that builds the same value. */
  lemma {:induction false} PureWrites(en: Enumeration, v: Value)
    requires Lawful(en) && Pure(v)
    ensures ToTree(en, v).Some? && Build(ToTree(en, v).value) == v
    decreases v, 2, 0
  {
    if v.Table? {
      if PureObject(v.entries) {
        PureObjectWrites(en, v);
      } else {
        var n: nat :| PureArray(v.entries, n);
        PureArrayWrites(en, v, n);
      }
    }
  }

  lemma {:induction false} PureArrayWrites(en: Enumeration, v: Value, n: nat)
    requires Lawful(en) && v.Table? && Pure(v) && PureArray(v.entries, n) && !PureObject(v.entries)
    ensures ToTree(en, v).Some? && Build(ToTree(en, v).value) == v
    decreases v, 1, n + 2
  {
    var m := v.entries;
    NamesOfArray(en, m, n);
    PureItems(en, v, n, 1);
    hide Lawful;
    var items := ItemsFrom(en, v, 1, n).value;
    forall k | 0 <= k < |items| ensures !Build(items[k]).Nil? {
      assert Index(1 + k) in m;
    }
    BuildItemsIs(map[], 0, items);
    hide Build, BuildItems;
    assert forall key :: key in BuildItems(map[], 0, items) <==> key in m;
    forall key | key in m ensures BuildItems(map[], 0, items)[key] == m[key] {
      assert key == Index(1 + (key.n - 1));
      assert Build(items[key.n - 1]) == m[Index(1 + (key.n - 1))];
    }
    assert BuildItems(map[], 0, items) == m;
    BuildsArray(items);
  }

  lemma BuildsArray(items: seq<Tree>)
    ensures Build(Array(items)) == Table(BuildItems(map[], 0, items))
  {
  }

  lemma BuildsObject(members: seq<Member>)
    ensures Build(Object(members)) == Table(BuildMembers(map[], members))
  {
  }

  lemma EmptyOrNot(names: seq<string>)
    ensures names == [] || exists s :: s in names
  {
    if names != [] {
      assert names[0] in names;
    }
  }

  lemma NamesOfArray(en: Enumeration, m: map<Key, Value>, n: nat)
    requires Lawful(en) && PureArray(m, n) && !PureObject(m)
    ensures en.names(m) == [] && en.border(m) == n && n > 0
  {
    assert IsBorder(m, en.border(m)) && ListsNames(m, en.names(m));
    assert forall s :: s !in en.names(m);
    EmptyOrNot(en.names(m));
    var b := en.border(m);
    assert Index(b + 1) !in m;
  }

  lemma {:induction false} PureObjectWrites(en: Enumeration, v: Value)
    requires Lawful(en) && v.Table? && Pure(v) && PureObject(v.entries)
    ensures ToTree(en, v).Some? && Build(ToTree(en, v).value) == v
    decreases v, 1, |en.names(v.entries)| + 1
  {
    var m := v.entries;
    var names := en.names(m);
    assert IsBorder(m, en.border(m)) && ListsNames(m, names);
    forall k | 0 <= k < |names| ensures Name(names[k]) in m {
      assert names[k] in names;
    }
    PureMembers(en, v, names);
    var members := MembersFrom(en, v, names).value;
    assert ToTree(en, v) == Some(Object(Numbered([], 1) + members));
    assert Numbered([], 1) + members == members;
    MembersRebuild(m, names, members);
    BuildsObject(members);
  }

  lemma MembersRebuild(m: map<Key, Value>, names: seq<string>, members: seq<Member>)
    requires PureObject(m) && ListsNames(m, names) && (forall k :: k in m ==> !m[k].Nil?)
    requires |members| == |names|
    requires forall k :: 0 <= k < |names| ==>
      members[k].key == names[k] && Name(names[k]) in m && Build(members[k].value) == m[Name(names[k])]
    ensures BuildMembers(map[], members) == m
  {
    BuildMembersIs(map[], members);
    hide Build, BuildMembers;
    forall key ensures key in BuildMembers(map[], members) <==> key in m {
      if key in m {
        var k :| 0 <= k < |names| && names[k] == key.s;
        assert key == Name(members[k].key);
      }
    }
    forall key | key in m ensures BuildMembers(map[], members)[key] == m[key] {
      var k :| 0 <= k < |names| && names[k] == key.s;
      assert key == Name(members[k].key);
    }
  }

  // ----- and no others -----

  lemma BuiltIsNotNil(en: Enumeration, v: Value)
    requires ToTree(en, v).Some? && !v.Nil?
    ensures !Build(ToTree(en, v).value).Nil?
  {
  }

  lemma {:induction false} ItemsFromAre(en: Enumeration, v: Value, i: nat, size: nat)
    requires v.Table? && ItemsFrom(en, v, i, size).Some?
    ensures var r := ItemsFrom(en, v, i, size).value;
      forall k :: 0 <= k < |r| ==> ItemWritten(en, v, i + k, r[k])
    decreases if i <= size then size - i + 1 else 0
  {
    hide ToTree;
    if i <= size {
      ItemsFromAre(en, v, i + 1, size);
      var r, rest := ItemsFrom(en, v, i, size).value, ItemsFrom(en, v, i + 1, size).value;
      assert r == [r[0]] + rest;
      forall k | 0 <= k < |r| ensures ItemWritten(en, v, i + k, r[k]) {
        if k > 0 {
          assert r[k] == rest[k - 1] && ItemWritten(en, v, i + 1 + (k - 1), rest[k - 1]);
        }
      }
    }
  }

  predicate ItemWritten(en: Enumeration, v: Value, i: nat, t: Tree)
    requires v.Table?
  {
    Index(i) in v.entries && WrittenAs(en, v.entries[Index(i)], t)
  }

  /** A value in a table and the tree written for it. */
  predicate WrittenAs(en: Enumeration, v: Value, t: Tree) {
    !v.Nil? && ToTree(en, v) == Some(t)
  }

  lemma {:induction false} MembersFromAre(en: Enumeration, v: Value, names: seq<string>)
    requires v.Table? && MembersFrom(en, v, names).Some?
    requires forall i, j :: 0 <= i < j < |names| ==> names[i] != names[j]
    ensures var r := MembersFrom(en, v, names).value;
      && (forall j :: 0 <= j < |r| ==>
            && r[j].key in names && Name(r[j].key) in v.entries
            && WrittenAs(en, v.entries[Name(r[j].key)], r[j].value))
      && forall i, j :: 0 <= i < j < |r| ==> r[i].key != r[j].key
    decreases |names|
  {
    hide ToTree;
    if names != [] {
      var others := names[1..];
      assert forall i :: 0 <= i < |others| ==> others[i] == names[i + 1];
      MembersFromAre(en, v, others);
      var rest := MembersFrom(en, v, others).value;
      var r := MembersFrom(en, v, names).value;
      if !Field(v, names[0]).Nil? {
        assert r == [r[0]] + rest && r[0].key == names[0];
        forall j | 0 <= j < |rest| ensures rest[j].key != names[0] {
          assert rest[j].key in others;
        }
      }
    }
  }

  lemma {:induction false} BuildMembersNames(entries: map<Key, Value>, members: seq<Member>)
    ensures forall key :: key in BuildMembers(entries, members) ==> key in entries || key.Name?
    decreases |members|
  {
    hide Build;
    if members != [] {
      BuildMembersNames(Put(entries, Name(members[0].key), Build(members[0].value)), members[1..]);
    }
  }

  /** A value that is written as a tree building the same value is pure. */
  lemma {:induction false} SameIsPure(en: Enumeration, v: Value)
    requires Lawful(en) && ToTree(en, v).Some? && Build(ToTree(en, v).value) == v
    ensures Pure(v)
    decreases v, 1
  {
    if v.Table? {
      if en.names(v.entries) == [] && en.border(v.entries) > 0 {
        SameArrayIsPure(en, v);
      } else {
        SameObjectIsPure(en, v);
      }
    }
  }

  lemma {:induction false} SameArrayIsPure(en: Enumeration, v: Value)
    requires Lawful(en) && ToTree(en, v).Some? && Build(ToTree(en, v).value) == v
    requires v.Table? && en.names(v.entries) == [] && en.border(v.entries) > 0
    ensures Pure(v)
    decreases v, 0
  {
    hide Lawful;
    var m, size := v.entries, en.border(v.entries);
    var items := ItemsFrom(en, v, 1, size).value;
    ItemsFromAre(en, v, 1, size);
    BuildsArray(items);
    hide ToTree, Build, ItemsFrom, BuildItems;
    forall k | 0 <= k < |items| ensures !Build(items[k]).Nil? {
      assert ItemWritten(en, v, 1 + k, items[k]);
      BuiltIsNotNil(en, m[Index(1 + k)]);
    }
    BuildItemsIs(map[], 0, items);
    assert m == BuildItems(map[], 0, items) && |items| == size;
    assert PureArray(m, size);
    forall key | key in m ensures !m[key].Nil? && Pure(m[key]) {
      var k := key.n - 1;
      assert key == Index(0 + 1 + k) && ItemWritten(en, v, 1 + k, items[k]);
      SameIsPure(en, m[key]);
    }
  }

  lemma {:induction false} SameObjectIsPure(en: Enumeration, v: Value)
    requires Lawful(en) && ToTree(en, v).Some? && Build(ToTree(en, v).value) == v
    requires v.Table? && !(en.names(v.entries) == [] && en.border(v.entries) > 0)
    ensures Pure(v)
    decreases v, 0
  {
    var m, names := v.entries, en.names(v.entries);
    SameHasOnlyNames(en, v);
    assert ListsNames(m, names);
    hide Lawful;
    var named := MembersFrom(en, v, names).value;
    MembersFromAre(en, v, names);
    hide ToTree, Build, MembersFrom, BuildMembers;
    forall k | 0 <= k < |named| ensures !Build(named[k].value).Nil? {
      assert WrittenAs(en, m[Name(named[k].key)], named[k].value);
      BuiltIsNotNil(en, m[Name(named[k].key)]);
    }
    BuildMembersIs(map[], named);
    forall key | key in m ensures !m[key].Nil? && Pure(m[key]) {
      var k :| 0 <= k < |named| && key == Name(named[k].key);
      assert WrittenAs(en, m[key], named[k].value);
      SameIsPure(en, m[key]);
    }
  }

  lemma SameHasOnlyNames(en: Enumeration, v: Value)
    requires Lawful(en) && ToTree(en, v).Some? && Build(ToTree(en, v).value) == v
    requires v.Table? && !(en.names(v.entries) == [] && en.border(v.entries) > 0)
    ensures PureObject(v.entries) && MembersFrom(en, v, en.names(v.entries)).Some?
    ensures v.entries == BuildMembers(map[], MembersFrom(en, v, en.names(v.entries)).value)
  {
    var m, size, names := v.entries, en.border(v.entries), en.names(v.entries);
    assert IsBorder(m, size);
    hide Lawful;
    var items, named := ItemsFrom(en, v, 1, size).value, MembersFrom(en, v, names).value;
    BuildsObject(Numbered(items, 1) + named);
    hide Build, BuildMembers;
    BuildMembersNames(map[], Numbered(items, 1) + named);
    assert PureObject(m) && size == 0 && items == [];
    assert Numbered([], 1) + named == named;
  }

  // ----- writing and reading back -----

  /** The writer accepts v under these limits. */
  ghost predicate Writes(en: Enumeration, l: Limits, v: Value) {
    ToTree(en, v).Some? && Room(l, 0, 0, ToTree(en, v).value)
  }

  /** Whatever the writer accepts, the reader accepts under the same depth limit and twice the node
      limit; it comes back unchanged exactly when it is pure. */
  lemma WrittenReadsBack(en: Enumeration, l: Limits, v: Value)
    requires Lawful(en) && Writes(en, l, v)
    ensures var h := Feed(Limits(l.maxDepth, 2 * l.maxNodes), FRESH, Events(ToTree(en, v).value));
      && !h.failed && h.stack == [] && h.depth == 0
      && (h.root == v <==> Pure(v))
  {
    var t := ToTree(en, v).value;
    ReaderMeasures(t);
    HandlerBuildsTree(Limits(l.maxDepth, 2 * l.maxNodes), t);
    if Pure(v) {
      PureWrites(en, v);
    } else if Build(t) == v {
      SameIsPure(en, v);
      assert false;
    }
  }

  // ----- what is written at all, and what it reads back as -----

  /** No opaque value in it, and the list part of every table, up to its border, without holes. */
  ghost predicate Writable(en: Enumeration, v: Value)
    decreases v
  {
    match v
    case Nil => true
    case Atom(_) => true
    case Opaque => false
    case Table(m) =>
      && (forall i :: 1 <= i <= en.border(m) ==>
            Index(i) in m && !m[Index(i)].Nil? && Writable(en, m[Index(i)]))
      && forall s :: Name(s) in m ==> Writable(en, m[Name(s)])
  }

  /** A value has a tree exactly when it is writable. */
  lemma {:induction false} TreeIff(en: Enumeration, v: Value)
    requires Lawful(en)
    ensures ToTree(en, v).Some? <==> Writable(en, v)
    decreases v, 2, 0
  {
    if v.Table? {
      var m := v.entries;
      assert ListsNames(m, en.names(m));
      ItemsIff(en, v, 1, en.border(m));
      MembersIff(en, v, en.names(m));
      hide Lawful, ItemsFrom, MembersFrom;
      if en.names(m) == [] {
        NoMembers(en, v);
      }
    }
  }

  lemma NoMembers(en: Enumeration, v: Value)
    requires v.Table?
    ensures MembersFrom(en, v, []) == Some([])
  {
  }

  lemma {:induction false} ItemsIff(en: Enumeration, v: Value, i: nat, size: nat)
    requires Lawful(en) && v.Table?
    ensures ItemsFrom(en, v, i, size).Some? <==> forall k :: i <= k <= size ==>
      Index(k) in v.entries && !v.entries[Index(k)].Nil? && Writable(en, v.entries[Index(k)])
    decreases v, 1, if i <= size then size - i + 1 else 0
  {
    if i <= size {
      var item := Item(v, i);
      if !item.Nil? {
        TreeIff(en, item);
        ItemsIff(en, v, i + 1, size);
      }
      hide ToTree, Writable, Lawful;
    }
  }

  lemma {:induction false} MembersIff(en: Enumeration, v: Value, names: seq<string>)
    requires Lawful(en) && v.Table?
    ensures MembersFrom(en, v, names).Some? <==> forall s :: s in names && Name(s) in v.entries ==>
      Writable(en, v.entries[Name(s)])
    decreases v, 1, |names|
  {
    if names != [] {
      var field := Field(v, names[0]);
      MembersIff(en, v, names[1..]);
      assert names == [names[0]] + names[1..];
      if !field.Nil? {
        TreeIff(en, field);
      } else {
        NilIsWritable(en);
      }
      hide ToTree, Writable, Lawful;
    }
  }

  lemma NilIsWritable(en: Enumeration)
    ensures Writable(en, Nil)
  {
  }

  lemma {:induction false} DecimalsDiffer(i: nat, j: nat)
    requires i != j
    ensures Decimal(i) != Decimal(j)
    decreases i
  {
    if i >= 10 && j >= 10 {
      if i / 10 != j / 10 {
        DecimalsDiffer(i / 10, j / 10);
      }
      assert Decimal(i)[..|Decimal(i)| - 1] == Decimal(i / 10) && Decimal(j)[..|Decimal(j)| - 1] == Decimal(j / 10);
      assert Decimal(i)[|Decimal(i)| - 1] == Digit(i % 10) && Decimal(j)[|Decimal(j)| - 1] == Digit(j % 10);
      DigitsDiffer(i % 10, j % 10);
    } else if i < 10 && j < 10 {
      DigitsDiffer(i, j);
    } else {
      LongDecimal(i);
      LongDecimal(j);
    }
  }

  lemma DigitsDiffer(a: nat, b: nat)
    requires a < 10 && b < 10
    ensures Digit(a) == Digit(b) ==> a == b
  {
  }

  lemma {:induction false} LongDecimal(i: nat)
    ensures if i < 10 then |Decimal(i)| == 1 else |Decimal(i)| > 1
  {
    if i >= 10 {
      LongDecimal(i / 10);
    }
  }

  lemma {:induction false} NumberedIs(items: seq<Tree>, i: nat)
    ensures var r := Numbered(items, i);
      |r| == |items| && forall k :: 0 <= k < |r| ==> r[k] == Member(Decimal(i + k), items[k])
    decreases |items|
  {
    if items != [] {
      NumberedIs(items[1..], i + 1);
      hide Decimal;
      forall k | 0 <= k < |items| ensures Numbered(items, i)[k] == Member(Decimal(i + k), items[k]) {
        if k > 0 {
          assert Numbered(items, i)[k] == Numbered(items[1..], i + 1)[k - 1] && i + 1 + (k - 1) == i + k;
        }
      }
    }
  }

  lemma {:induction false} BuildMembersBoth(entries: map<Key, Value>, a: seq<Member>, b: seq<Member>)
    ensures BuildMembers(entries, a + b) == BuildMembers(BuildMembers(entries, a), b)
    decreases |a|
  {
    hide Build;
    if a == [] {
      assert a + b == b;
    } else {
      assert (a + b)[1..] == a[1..] + b;
      BuildMembersBoth(Put(entries, Name(a[0].key), Build(a[0].value)), a[1..], b);
    }
  }

  /** What a value in a table reads back as. */
  function ReadBack(en: Enumeration, v: Value): (r: Value) {
    if ToTree(en, v).Some? then Build(ToTree(en, v).value) else Nil
  }

  /** Key s stands for item i of the list part. */
  ghost predicate Numbers(en: Enumeration, m: map<Key, Value>, s: string, i: nat) {
    1 <= i <= en.border(m) && s == Decimal(i)
  }

  ghost predicate HasField(m: map<Key, Value>, s: string) {
    Name(s) in m && !m[Name(s)].Nil?
  }

  /** Every key of the table that is read back is a string: a field of the table, with what that reads back
      as, or else the decimal number of an item of its list part, with what that reads back as. */
  ghost predicate Renamed(en: Enumeration, m: map<Key, Value>, r: map<Key, Value>) {
    && (forall key :: key in r ==> key.Name?)
    && (forall s :: HasField(m, s) ==> Name(s) in r && r[Name(s)] == ReadBack(en, m[Name(s)]))
    && (forall s, i: nat :: Numbers(en, m, s, i) && !HasField(m, s) ==>
          Index(i) in m && Name(s) in r && r[Name(s)] == ReadBack(en, m[Index(i)]))
    && forall s :: Name(s) in r ==> HasField(m, s) || exists i: nat :: Numbers(en, m, s, i)
  }

  lemma {:induction false} MembersCover(en: Enumeration, v: Value, names: seq<string>)
    requires v.Table? && MembersFrom(en, v, names).Some?
    ensures forall s :: s in names && HasField(v.entries, s) ==>
      exists k :: 0 <= k < |MembersFrom(en, v, names).value| && MembersFrom(en, v, names).value[k].key == s
    decreases |names|
  {
    hide ToTree;
    if names != [] {
      var rest, r := MembersFrom(en, v, names[1..]).value, MembersFrom(en, v, names).value;
      MembersCover(en, v, names[1..]);
      forall s | s in names && HasField(v.entries, s) ensures exists k :: 0 <= k < |r| && r[k].key == s {
        if s == names[0] {
          assert r[0].key == s;
        } else {
          assert s in names[1..];
          var k :| 0 <= k < |rest| && rest[k].key == s;
          assert r[k + |r| - |rest|] == rest[k];
        }
      }
    }
  }

  /** The members and what is built from them agree on this table: first the items, then the fields. */
  ghost predicate BuiltFrom(entries: map<Key, Value>, members: seq<Member>, r: map<Key, Value>) {
    && (forall key :: key in r <==> key in entries || exists k :: 0 <= k < |members| && key == Name(members[k].key))
    && (forall k :: 0 <= k < |members| ==>
          Name(members[k].key) in r && r[Name(members[k].key)] == Build(members[k].value))
    && forall key :: key in entries && (forall k :: 0 <= k < |members| ==> key != Name(members[k].key)) ==>
         r[key] == entries[key]
  }

  lemma RenamedIs(en: Enumeration, v: Value, items: seq<Tree>, numbered: seq<Member>, members: seq<Member>,
                  first: map<Key, Value>, r: map<Key, Value>)
    requires v.Table? && |numbered| == |items| == en.border(v.entries)
    requires forall k :: 0 <= k < |items| ==>
      numbered[k] == Member(Decimal(1 + k), items[k]) && ItemWritten(en, v, 1 + k, items[k])
    requires forall k :: 0 <= k < |members| ==>
      Name(members[k].key) in v.entries && WrittenAs(en, v.entries[Name(members[k].key)], members[k].value)
    requires forall s :: HasField(v.entries, s) ==> exists k :: 0 <= k < |members| && members[k].key == s
    requires BuiltFrom(map[], numbered, first) && BuiltFrom(first, members, r)
    ensures Renamed(en, v.entries, r)
  {
    hide ToTree, Build, Decimal;
    var m := v.entries;
    forall s | HasField(m, s) ensures Name(s) in r && r[Name(s)] == ReadBack(en, m[Name(s)]) {
      var k :| 0 <= k < |members| && members[k].key == s;
      assert WrittenAs(en, m[Name(members[k].key)], members[k].value);
    }
    forall s, i: nat | Numbers(en, m, s, i) && !HasField(m, s)
      ensures Index(i) in m && Name(s) in r && r[Name(s)] == ReadBack(en, m[Index(i)])
    {
      var k := i - 1;
      assert numbered[k] == Member(Decimal(1 + k), items[k]) && ItemWritten(en, v, 1 + k, items[k]);
      assert Name(numbered[k].key) in first;
      forall j | 0 <= j < |members| ensures Name(s) != Name(members[j].key) {
        assert WrittenAs(en, m[Name(members[j].key)], members[j].value);
      }
    }
    forall s | Name(s) in r ensures HasField(m, s) || exists i: nat :: Numbers(en, m, s, i) {
      if k :| 0 <= k < |members| && Name(s) == Name(members[k].key) {
        assert WrittenAs(en, m[Name(members[k].key)], members[k].value);
      } else {
        assert Name(s) in first;
        var k :| 0 <= k < |numbered| && Name(s) == Name(numbered[k].key);
        assert Numbers(en, m, s, 1 + k);
      }
    }
  }

  lemma MembersAreBuilt(entries: map<Key, Value>, members: seq<Member>)
    requires forall k :: 0 <= k < |members| ==> !Build(members[k].value).Nil?
    requires forall i, j :: 0 <= i < j < |members| ==> members[i].key != members[j].key
    ensures BuiltFrom(entries, members, BuildMembers(entries, members))
  {
    BuildMembersIs(entries, members);
    hide Build, BuildMembers;
  }

  /** The list part, as members keyed by number. */
  lemma NumberedBuilds(en: Enumeration, v: Value, items: seq<Tree>)
    requires v.Table? && ItemsFrom(en, v, 1, en.border(v.entries)) == Some(items)
    ensures var numbered := Numbered(items, 1);
      && |numbered| == |items| == en.border(v.entries)
      && (forall k :: 0 <= k < |items| ==>
            numbered[k] == Member(Decimal(1 + k), items[k]) && ItemWritten(en, v, 1 + k, items[k]))
      && BuiltFrom(map[], numbered, BuildMembers(map[], numbered))
  {
    ItemsFromAre(en, v, 1, en.border(v.entries));
    hide ToTree, Build, BuildMembers, ItemsFrom, Decimal, BuiltFrom;
    var numbered := Numbered(items, 1);
    NumberedIs(items, 1);
    hide Numbered;
    forall k | 0 <= k < |numbered| ensures !Build(numbered[k].value).Nil? {
      assert ItemWritten(en, v, 1 + k, items[k]);
      BuiltIsNotNil(en, v.entries[Index(1 + k)]);
    }
    forall i, j | 0 <= i < j < |numbered| ensures numbered[i].key != numbered[j].key {
      DecimalsDiffer(1 + i, 1 + j);
    }
    MembersAreBuilt(map[], numbered);
  }

  /** The fields, put on top of what is there. */
  lemma NamedBuild(en: Enumeration, v: Value, names: seq<string>, members: seq<Member>, entries: map<Key, Value>)
    requires v.Table? && MembersFrom(en, v, names) == Some(members) && ListsNames(v.entries, names)
    ensures forall k :: 0 <= k < |members| ==>
      Name(members[k].key) in v.entries && WrittenAs(en, v.entries[Name(members[k].key)], members[k].value)
    ensures forall s :: HasField(v.entries, s) ==> exists k :: 0 <= k < |members| && members[k].key == s
    ensures BuiltFrom(entries, members, BuildMembers(entries, members))
  {
    MembersFromAre(en, v, names);
    MembersCover(en, v, names);
    hide ToTree, Build, BuildMembers, MembersFrom, BuiltFrom;
    forall k | 0 <= k < |members| ensures !Build(members[k].value).Nil? {
      assert WrittenAs(en, v.entries[Name(members[k].key)], members[k].value);
      BuiltIsNotNil(en, v.entries[Name(members[k].key)]);
    }
    MembersAreBuilt(entries, members);
    assert forall s :: HasField(v.entries, s) ==> s in names;
  }

  /** A table with string keys, or without a list part, comes back with string keys only. */
  lemma MixedReadsBack(en: Enumeration, v: Value)
    requires Lawful(en) && v.Table? && ToTree(en, v).Some?
    requires en.names(v.entries) != [] || en.border(v.entries) == 0
    ensures var r := Build(ToTree(en, v).value); r.Table? && Renamed(en, v.entries, r.entries)
  {
    var m, names := v.entries, en.names(v.entries);
    assert ListsNames(m, names);
    var items, members := ItemsFrom(en, v, 1, en.border(m)).value, MembersFrom(en, v, names).value;
    BuildsObject(Numbered(items, 1) + members);
    hide Lawful, ToTree, Build, BuildMembers, ItemsFrom, MembersFrom, Numbered, ListsNames, BuiltFrom;
    hide HasField, Renamed, WrittenAs, ItemWritten, Decimal;
    var first := BuildMembers(map[], Numbered(items, 1));
    BuildMembersBoth(map[], Numbered(items, 1), members);
    NumberedBuilds(en, v, items);
    NamedBuild(en, v, names, members, first);
    RenamedIs(en, v, items, Numbered(items, 1), members, first, BuildMembers(first, members));
  }

  /** A table that is neither: one item and one named field. */
  function Mixed(): (v: Value) {
    Table(map[Index(1) := Atom(5), Name("x") := Atom(6)])
  }

  /** It is written, and comes back changed. */
  lemma MixedIsChanged(en: Enumeration)
    requires Lawful(en)
    ensures Writes(en, Limits(2, 3), Mixed()) && !Pure(Mixed())
    ensures Feed(Limits(2, 6), FRESH, Events(ToTree(en, Mixed()).value)).root != Mixed()
  {
    var m := Mixed().entries;
    assert Index(1) in m && Name("x") in m;
    MixedTree(en);
    hide ToTree;
    WrittenReadsBack(en, Limits(2, 3), Mixed());
  }

  lemma MixedTree(en: Enumeration)
    requires Lawful(en)
    ensures ToTree(en, Mixed()).Some? && Levels(ToTree(en, Mixed()).value) == 2 && Count(ToTree(en, Mixed()).value) == 3
  {
    var v := Mixed();
    var m := v.entries;
    MixedNames(en);
    var five, six := Scalar(Atom(5)), Scalar(Atom(6));
    assert ItemsFrom(en, v, 2, 1) == Some([]);
    assert ToTree(en, Atom(5)) == Some(five) && ToTree(en, Atom(6)) == Some(six);
    assert [five] + [] == [five] && ItemsFrom(en, v, 1, en.border(m)) == Some([five]);
    assert ["x"][1..] == [] && MembersFrom(en, v, []) == Some([]);
    assert [Member("x", six)] + [] == [Member("x", six)];
    assert MembersFrom(en, v, en.names(m)) == Some([Member("x", six)]);
    var first, second := Member(Decimal(1), five), Member("x", six);
    assert [five][1..] == [] && Numbered([], 2) == [] && Numbered([five], 1) == [first];
    assert Numbered([five], 1) + [second] == [first, second];
    assert ToTree(en, v) == Some(Object([first, second]));
    assert [first, second][1..] == [second] && [second][1..] == [];
    assert CountOfMembers([second]) == 1 && CountOfMembers([first, second]) == 2;
    assert LevelsOfMembers([second]) == 1 && LevelsOfMembers([first, second]) == 1;
  }

  lemma MixedNames(en: Enumeration)
    requires Lawful(en)
    ensures en.names(Mixed().entries) == ["x"] && en.border(Mixed().entries) == 1
  {
    var m := Mixed().entries;
    var names := en.names(m);
    assert IsBorder(m, en.border(m)) && ListsNames(m, names);
    assert Name("x") in m && Index(1) in m && forall n: nat :: n != 1 ==> Index(n) !in m;
    assert "x" in names;
    if |names| >= 2 {
      BothAreX(m, names);
      TwoDiffer(names);
      assert false;
    }
  }

  lemma BothAreX(m: map<Key, Value>, names: seq<string>)
    requires m == Mixed().entries && |names| >= 2 && forall s :: s in names ==> Name(s) in m
    ensures names[0] == "x" && names[1] == "x"
  {
    assert names[0] in names && names[1] in names;
  }

  lemma TwoDiffer(names: seq<string>)
    requires |names| >= 2 && forall i, j :: 0 <= i < j < |names| ==> names[i] != names[j]
    ensures names[0] != names[1]
  {
  }

  /** A pure value is refused only for its size. */
  lemma PureIsWritten(en: Enumeration, l: Limits, v: Value)
    requires Lawful(en) && Pure(v)
    ensures ToTree(en, v).Some?
    ensures Writes(en, l, v) <==> Levels(ToTree(en, v).value) <= l.maxDepth && Count(ToTree(en, v).value) <= l.maxNodes
  {
    PureWrites(en, v);
  }

  // ----- the writer as it runs -----

  lemma {:induction false} CountOfItemsAppend(items: seq<Tree>, more: seq<Tree>)
    ensures CountOfItems(items + more) == CountOfItems(items) + CountOfItems(more)
    ensures LevelsOfItems(items + more) == Max(LevelsOfItems(items), LevelsOfItems(more))
    ensures EventsOfItems(items + more) == EventsOfItems(items) + EventsOfItems(more)
    decreases |items|
  {
    hide Count, Levels, Events;
    if items == [] {
      assert items + more == more;
    } else {
      assert (items + more)[1..] == items[1..] + more;
      CountOfItemsAppend(items[1..], more);
    }
  }

  lemma {:induction false} CountOfMembersAppend(members: seq<Member>, more: seq<Member>)
    ensures CountOfMembers(members + more) == CountOfMembers(members) + CountOfMembers(more)
    ensures LevelsOfMembers(members + more) == Max(LevelsOfMembers(members), LevelsOfMembers(more))
    ensures EventsOfMembers(members + more) == EventsOfMembers(members) + EventsOfMembers(more)
    decreases |members|
  {
    hide Count, Levels, Events;
    if members == [] {
      assert members + more == more;
    } else {
      assert (members + more)[1..] == members[1..] + more;
      CountOfMembersAppend(members[1..], more);
    }
  }

  /** How a sequence splits around what has been written so far. */
  ghost predicate Joined<T>(whole: Option<seq<T>>, done: seq<T>, rest: Option<seq<T>>) {
    if rest.None? then whole.None? else whole == Some(done + rest.value)
  }

  lemma ItemsStep(en: Enumeration, v: Value, size: nat, i: nat, done: seq<Tree>)
    requires v.Table? && 1 <= i <= size && Joined(ItemsFrom(en, v, 1, size), done, ItemsFrom(en, v, i, size))
    ensures var whole, item := ItemsFrom(en, v, 1, size), Item(v, i);
      if item.Nil? || ToTree(en, item).None? then whole.None?
      else
        && Joined(whole, done + [ToTree(en, item).value], ItemsFrom(en, v, i + 1, size))
        && (whole.Some? ==> done + [ToTree(en, item).value] <= whole.value)
  {
    hide ToTree;
    var item, rest := Item(v, i), ItemsFrom(en, v, i + 1, size);
    if !item.Nil? && ToTree(en, item).Some? && rest.Some? {
      var first := ToTree(en, item).value;
      assert ItemsFrom(en, v, i, size) == Some([first] + rest.value);
      assert done + ([first] + rest.value) == done + [first] + rest.value;
    }
  }

  lemma MembersStep(en: Enumeration, v: Value, names: seq<string>, k: nat, done: seq<Member>)
    requires v.Table? && k < |names| && Joined(MembersFrom(en, v, names), done, MembersFrom(en, v, names[k..]))
    ensures var whole, field := MembersFrom(en, v, names), Field(v, names[k]);
      if field.Nil? then Joined(whole, done, MembersFrom(en, v, names[k + 1..]))
      else if ToTree(en, field).None? then whole.None?
      else
        var m := Member(names[k], ToTree(en, field).value);
        Joined(whole, done + [m], MembersFrom(en, v, names[k + 1..])) && (whole.Some? ==> done + [m] <= whole.value)
  {
    hide ToTree;
    assert names[k..][1..] == names[k + 1..] && names[k..][0] == names[k];
    var field, rest := Field(v, names[k]), MembersFrom(en, v, names[k + 1..]);
    if !field.Nil? && ToTree(en, field).Some? && rest.Some? {
      var first := Member(names[k], ToTree(en, field).value);
      assert MembersFrom(en, v, names[k..]) == Some([first] + rest.value);
      assert done + ([first] + rest.value) == done + [first] + rest.value;
    }
  }

  /** Room for these items for a writer that has counted so far. */
  ghost predicate RoomForItems(l: Limits, depth: nat, nodes: nat, items: seq<Tree>) {
    (items == [] || depth + LevelsOfItems(items) <= l.maxDepth) && nodes + CountOfItems(items) <= l.maxNodes
  }

  ghost predicate RoomForMembers(l: Limits, depth: nat, nodes: nat, members: seq<Member>) {
    (members == [] || depth + LevelsOfMembers(members) <= l.maxDepth) && nodes + CountOfMembers(members) <= l.maxNodes
  }

  ghost predicate Room(l: Limits, depth: nat, nodes: nat, t: Tree) {
    depth + Levels(t) <= l.maxDepth && nodes + Count(t) <= l.maxNodes
  }

  lemma OneItem(l: Limits, depth: nat, nodes: nat, done: seq<Tree>, t: Tree)
    requires RoomForItems(l, depth, nodes, done)
    ensures EventsOfItems(done + [t]) == EventsOfItems(done) + Events(t)
    ensures CountOfItems(done + [t]) == CountOfItems(done) + Count(t)
    ensures RoomForItems(l, depth, nodes, done + [t]) <==> Room(l, depth, nodes + CountOfItems(done), t)
  {
    hide Count, Levels, Events;
    CountOfItemsAppend(done, [t]);
    assert [t][1..] == [];
    assert EventsOfItems([t]) == Events(t) + [] && CountOfItems([t]) == Count(t) && LevelsOfItems([t]) == Levels(t);
  }

  lemma ShorterItems(l: Limits, depth: nat, nodes: nat, some: seq<Tree>, all: seq<Tree>)
    requires RoomForItems(l, depth, nodes, all) && some <= all
    ensures RoomForItems(l, depth, nodes, some)
  {
    hide Count, Levels, Events;
    CountOfItemsAppend(some, all[|some|..]);
    assert all == some + all[|some|..];
  }

  lemma OneMember(l: Limits, depth: nat, nodes: nat, done: seq<Member>, m: Member)
    requires RoomForMembers(l, depth, nodes, done)
    ensures EventsOfMembers(done + [m]) == EventsOfMembers(done) + [KeyEvent(m.key)] + Events(m.value)
    ensures CountOfMembers(done + [m]) == CountOfMembers(done) + Count(m.value)
    ensures RoomForMembers(l, depth, nodes, done + [m]) <==> Room(l, depth, nodes + CountOfMembers(done), m.value)
  {
    hide Count, Levels, Events;
    CountOfMembersAppend(done, [m]);
    assert [m][1..] == [];
    assert EventsOfMembers([m]) == [KeyEvent(m.key)] + Events(m.value) + [];
    assert CountOfMembers([m]) == Count(m.value) && LevelsOfMembers([m]) == Levels(m.value);
  }

  lemma ShorterMembers(l: Limits, depth: nat, nodes: nat, some: seq<Member>, all: seq<Member>)
    requires RoomForMembers(l, depth, nodes, all) && some <= all
    ensures RoomForMembers(l, depth, nodes, some)
  {
    hide Count, Levels, Events;
    CountOfMembersAppend(some, all[|some|..]);
    assert all == some + all[|some|..];
  }

  lemma {:induction false} NumberedAppend(items: seq<Tree>, t: Tree, i: nat)
    ensures Numbered(items + [t], i) == Numbered(items, i) + [Member(Decimal(i + |items|), t)]
    decreases |items|
  {
    hide Decimal;
    if items == [] {
      assert [] + [t] == [t] && [t][1..] == [];
    } else {
      assert (items + [t])[1..] == items[1..] + [t];
      NumberedAppend(items[1..], t, i + 1);
    }
  }

  lemma {:induction false} NumberedMeasures(items: seq<Tree>, i: nat)
    ensures |Numbered(items, i)| == |items| && CountOfMembers(Numbered(items, i)) == CountOfItems(items)
    ensures LevelsOfMembers(Numbered(items, i)) == LevelsOfItems(items)
    decreases |items|
  {
    hide Decimal, Count, Levels;
    if items != [] {
      NumberedMeasures(items[1..], i + 1);
      assert Numbered(items, i)[1..] == Numbered(items[1..], i + 1);
    }
  }

  /** The writer: events go out as they arise, nodes and depth are counted by reference. */
  class Writer {
    const en: Enumeration
    const l: Limits
    var events: seq<Event>
    var nodes: nat
    var depth: nat

    constructor (en: Enumeration, l: Limits)
      ensures this.en == en && this.l == l && events == [] && nodes == 0 && depth == 0
    {
      this.en, this.l := en, l;
      events, nodes, depth := [], 0, 0;
    }

    /** Succeeds exactly when the value has a tree and there is room for it. */
    method WriteValue(value: Value) returns (ok: bool)
      modifies this
      ensures ok <==> ToTree(en, value).Some? && Room(l, old(depth), old(nodes), ToTree(en, value).value)
      ensures ok ==> events == old(events) + Events(ToTree(en, value).value)
      ensures ok ==> nodes == old(nodes) + Count(ToTree(en, value).value) && depth == old(depth)
      decreases value, 2, 0
    {
      hide ItemsFrom, MembersFrom, RoomForItems, RoomForMembers, EventsOfItems, EventsOfMembers, Numbered;
      nodes := nodes + 1;
      if nodes > l.maxNodes {
        return false;
      }
      if depth >= l.maxDepth {
        return false;
      }
      match value
      case Nil =>
        events := events + [ScalarEvent(value)];
        return true;
      case Atom(_) =>
        events := events + [ScalarEvent(value)];
        return true;
      case Opaque =>
        return false;
      case Table(m) =>
        ok := WriteTable(value);
    }

    method WriteTable(value: Value) returns (ok: bool)
      requires value.Table? && nodes <= l.maxNodes && depth < l.maxDepth && nodes > 0
      modifies this
      ensures ok <==> ToTree(en, value).Some? && Room(l, old(depth), old(nodes) - 1, ToTree(en, value).value)
      ensures ok ==> events == old(events) + Events(ToTree(en, value).value)
      ensures ok ==> nodes == old(nodes) - 1 + Count(ToTree(en, value).value) && depth == old(depth)
      decreases value, 1, 1
    {
      hide ItemsFrom, MembersFrom, RoomForItems, RoomForMembers, EventsOfItems, EventsOfMembers, Numbered;
      var size := en.border(value.entries);
      var keys := en.names(value.entries);
      depth := depth + 1;
      if keys == [] && size > 0 {
        events := events + [Start(true)];
        ArrayRoom(l, depth, nodes, ItemsFrom(en, value, 1, size));
        ok := WriteItems(value, size);
        if !ok {
          return;
        }
        events := events + [End(true)];
      } else {
        events := events + [Start(false)];
        ObjectRoom(l, depth, nodes, ItemsFrom(en, value, 1, size), MembersFrom(en, value, keys));
        ok := WriteNumbered(value, size);
        if !ok {
          return;
        }
        ok := WriteNamed(value, keys);
        if !ok {
          return;
        }
        events := events + [End(false)];
      }
      depth := depth - 1;
    }

    method WriteItems(value: Value, size: nat) returns (ok: bool)
      requires value.Table? && nodes <= l.maxNodes
      modifies this
      ensures ok <==>
        ItemsFrom(en, value, 1, size).Some? &&
          RoomForItems(l, old(depth), old(nodes), ItemsFrom(en, value, 1, size).value)
      ensures ok ==> events == old(events) + EventsOfItems(ItemsFrom(en, value, 1, size).value)
      ensures ok ==> nodes == old(nodes) + CountOfItems(ItemsFrom(en, value, 1, size).value) && depth == old(depth)
      decreases value, 1, 0
    {
      hide RoomForItems, ItemsFrom, EventsOfItems, CountOfItems, ToTree, Room, Count, Events;
      ghost var whole := ItemsFrom(en, value, 1, size);
      ghost var done: seq<Tree> := [];
      ItemsStart(en, value, size, l, depth, nodes);
      for i := 1 to size + 1
        invariant depth == old(depth) && RoomForItems(l, old(depth), old(nodes), done)
        invariant Joined(whole, done, ItemsFrom(en, value, i, size))
        invariant events == old(events) + EventsOfItems(done) && nodes == old(nodes) + CountOfItems(done)
      {
        ItemsStep(en, value, size, i, done);
        var item := Item(value, i);
        if item.Nil? {
          return false;
        }
        ghost var t := ToTree(en, item);
        if t.Some? {
          OneItem(l, old(depth), old(nodes), done, t.value);
        }
        ok := WriteValue(item);
        if !ok {
          if whole.Some? && RoomForItems(l, old(depth), old(nodes), whole.value) {
            ShorterItems(l, old(depth), old(nodes), done + [t.value], whole.value);
          }
          return false;
        }
        done := done + [t.value];
      }
      ItemsEnd(en, value, size, done);
      ok := true;
    }

    method WriteNumbered(value: Value, size: nat) returns (ok: bool)
      requires value.Table? && nodes <= l.maxNodes
      modifies this
      ensures ok <==>
        ItemsFrom(en, value, 1, size).Some? &&
          RoomForItems(l, old(depth), old(nodes), ItemsFrom(en, value, 1, size).value)
      ensures ok ==> events == old(events) + EventsOfMembers(Numbered(ItemsFrom(en, value, 1, size).value, 1))
      ensures ok ==> nodes == old(nodes) + CountOfItems(ItemsFrom(en, value, 1, size).value) && depth == old(depth)
      decreases value, 1, 0
    {
      hide RoomForItems, ItemsFrom, EventsOfMembers, CountOfItems, ToTree, Room, Count, Events, Numbered;
      ghost var whole := ItemsFrom(en, value, 1, size);
      ghost var done: seq<Tree> := [];
      ItemsStart(en, value, size, l, depth, nodes);
      for i := 1 to size + 1
        invariant depth == old(depth) && RoomForItems(l, old(depth), old(nodes), done) && |done| == i - 1
        invariant Joined(whole, done, ItemsFrom(en, value, i, size))
        invariant events == old(events) + EventsOfMembers(Numbered(done, 1)) && nodes == old(nodes) + CountOfItems(done)
      {
        ItemsStep(en, value, size, i, done);
        var item := Item(value, i);
        if item.Nil? {
          return false;
        }
        ghost var t := ToTree(en, item);
        if t.Some? {
          OneItem(l, old(depth), old(nodes), done, t.value);
          OneNumbered(done, t.value);
        }
        events := events + [KeyEvent(Decimal(i))];
        ok := WriteValue(item);
        if !ok {
          if whole.Some? && RoomForItems(l, old(depth), old(nodes), whole.value) {
            ShorterItems(l, old(depth), old(nodes), done + [t.value], whole.value);
          }
          return false;
        }
        done := done + [t.value];
      }
      ItemsEnd(en, value, size, done);
      ok := true;
    }

    method WriteNamed(value: Value, keys: seq<string>) returns (ok: bool)
      requires value.Table? && nodes <= l.maxNodes
      modifies this
      ensures ok <==>
        MembersFrom(en, value, keys).Some? &&
          RoomForMembers(l, old(depth), old(nodes), MembersFrom(en, value, keys).value)
      ensures ok ==> events == old(events) + EventsOfMembers(MembersFrom(en, value, keys).value)
      ensures ok ==> nodes == old(nodes) + CountOfMembers(MembersFrom(en, value, keys).value) && depth == old(depth)
      decreases value, 1, 0
    {
      hide RoomForMembers, MembersFrom, EventsOfMembers, CountOfMembers, ToTree, Room, Count, Events;
      ghost var whole := MembersFrom(en, value, keys);
      ghost var done: seq<Member> := [];
      MembersStart(en, value, keys, l, depth, nodes);
      for k := 0 to |keys|
        invariant depth == old(depth) && RoomForMembers(l, old(depth), old(nodes), done)
        invariant Joined(whole, done, MembersFrom(en, value, keys[k..]))
        invariant events == old(events) + EventsOfMembers(done) && nodes == old(nodes) + CountOfMembers(done)
      {
        MembersStep(en, value, keys, k, done);
        var field := Field(value, keys[k]);
        if field.Nil? {
          continue;
        }
        ghost var t := ToTree(en, field);
        if t.Some? {
          OneMember(l, old(depth), old(nodes), done, Member(keys[k], t.value));
        }
        events := events + [KeyEvent(keys[k])];
        ok := WriteValue(field);
        if !ok {
          if whole.Some? && RoomForMembers(l, old(depth), old(nodes), whole.value) {
            ShorterMembers(l, old(depth), old(nodes), done + [Member(keys[k], t.value)], whole.value);
          }
          return false;
        }
        done := done + [Member(keys[k], t.value)];
      }
      MembersEnd(en, value, keys, done);
      ok := true;
    }
  }

  lemma OneNumbered(done: seq<Tree>, t: Tree)
    ensures EventsOfMembers(Numbered(done + [t], 1)) ==
      EventsOfMembers(Numbered(done, 1)) + [KeyEvent(Decimal(1 + |done|))] + Events(t)
  {
    hide Decimal, Events, Numbered;
    NumberedAppend(done, t, 1);
    var m := Member(Decimal(1 + |done|), t);
    CountOfMembersAppend(Numbered(done, 1), [m]);
    assert [m][1..] == [];
    assert EventsOfMembers([m]) == [KeyEvent(m.key)] + Events(m.value) + [];
  }

  lemma ItemsStart(en: Enumeration, v: Value, size: nat, l: Limits, depth: nat, nodes: nat)
    requires v.Table? && nodes <= l.maxNodes
    ensures Joined(ItemsFrom(en, v, 1, size), [], ItemsFrom(en, v, 1, size)) && RoomForItems(l, depth, nodes, [])
    ensures EventsOfItems([]) == [] && CountOfItems([]) == 0 && Numbered([], 1) == [] && EventsOfMembers([]) == []
  {
    if ItemsFrom(en, v, 1, size).Some? {
      assert [] + ItemsFrom(en, v, 1, size).value == ItemsFrom(en, v, 1, size).value;
    }
  }

  lemma ItemsEnd(en: Enumeration, v: Value, size: nat, done: seq<Tree>)
    requires v.Table? && Joined(ItemsFrom(en, v, 1, size), done, ItemsFrom(en, v, size + 1, size))
    ensures ItemsFrom(en, v, 1, size) == Some(done)
  {
    assert done + [] == done;
  }

  lemma MembersStart(en: Enumeration, v: Value, keys: seq<string>, l: Limits, depth: nat, nodes: nat)
    requires v.Table? && nodes <= l.maxNodes
    ensures Joined(MembersFrom(en, v, keys), [], MembersFrom(en, v, keys)) && keys[0..] == keys
    ensures EventsOfMembers([]) == [] && CountOfMembers([]) == 0 && RoomForMembers(l, depth, nodes, [])
  {
    if MembersFrom(en, v, keys).Some? {
      assert [] + MembersFrom(en, v, keys).value == MembersFrom(en, v, keys).value;
    }
  }

  lemma MembersEnd(en: Enumeration, v: Value, keys: seq<string>, done: seq<Member>)
    requires v.Table? && Joined(MembersFrom(en, v, keys), done, MembersFrom(en, v, keys[|keys|..]))
    ensures MembersFrom(en, v, keys) == Some(done)
  {
    assert keys[|keys|..] == [] && done + [] == done;
  }

  lemma ArrayRoom(l: Limits, depth: nat, nodes: nat, items: Option<seq<Tree>>)
    requires 0 < depth <= l.maxDepth && nodes > 0
    ensures items.Some? ==>
      (RoomForItems(l, depth, nodes, items.value) <==> Room(l, depth - 1, nodes - 1, Array(items.value)))
  {
    if items.Some? {
      assert Levels(Array(items.value)) == 1 + LevelsOfItems(items.value);
      assert Count(Array(items.value)) == 1 + CountOfItems(items.value);
      assert items.value == [] ==> LevelsOfItems(items.value) == 0;
    }
  }

  lemma ObjectRoom(l: Limits, depth: nat, nodes: nat, items: Option<seq<Tree>>, named: Option<seq<Member>>)
    requires 0 < depth <= l.maxDepth && nodes > 0
    ensures items.Some? && named.Some? ==>
      var members := Numbered(items.value, 1) + named.value;
      && EventsOfMembers(members) == EventsOfMembers(Numbered(items.value, 1)) + EventsOfMembers(named.value)
      && CountOfMembers(members) == CountOfItems(items.value) + CountOfMembers(named.value)
      && ((RoomForItems(l, depth, nodes, items.value) &&
            RoomForMembers(l, depth, nodes + CountOfItems(items.value), named.value)) <==>
          Room(l, depth - 1, nodes - 1, Object(members)))
    ensures items.Some? && RoomForItems(l, depth, nodes, items.value) ==>
      nodes + CountOfItems(items.value) <= l.maxNodes
  {
    if items.Some? && named.Some? {
      hide Decimal, Events;
      CountOfMembersAppend(Numbered(items.value, 1), named.value);
      NumberedMeasures(items.value, 1);
    }
  }
}
