/** JSON values as Lua values: the recursive tree builder, and the event handler with its explicit
    stacks that must agree with it. Scalars are opaque tokens. */
module Json {

  datatype Key = Index(n: nat) | Name(s: string)

  /** A table never holds nil: storing nil removes the entry. Opaque stands for what JSON cannot
      express, such as functions and non-finite numbers. */
  datatype Value = Nil | Atom(token: int) | Opaque | Table(entries: map<Key, Value>)

  datatype Tree = Scalar(value: Value) | Array(items: seq<Tree>) | Object(members: seq<Member>)

  datatype Member = Member(key: string, value: Tree)

  datatype Limits = Limits(maxDepth: nat, maxNodes: nat)

  // ----- the simple form -----

  function Put(entries: map<Key, Value>, key: Key, value: Value): (r: map<Key, Value>) {
    if value.Nil? then entries - {key} else entries[key := value]
  }

  function Build(t: Tree): (v: Value)
    decreases t
  {
    match t
    case Scalar(value) => value
    case Array(items) => Table(BuildItems(map[], 0, items))
    case Object(members) => Table(BuildMembers(map[], members))
  }

  function BuildItems(entries: map<Key, Value>, index: nat, items: seq<Tree>): (r: map<Key, Value>)
    decreases items
  {
    if items == [] then entries
    else BuildItems(Put(entries, Index(index + 1), Build(items[0])), index + 1, items[1..])
  }

  function BuildMembers(entries: map<Key, Value>, members: seq<Member>): (r: map<Key, Value>)
    decreases members
  {
    if members == [] then entries
    else BuildMembers(Put(entries, Name(members[0].key), Build(members[0].value)), members[1..])
  }

  /** Containers, scalars and keys. */
  function Nodes(t: Tree): (n: nat) {
    match t
    case Scalar(_) => 1
    case Array(items) => 1 + NodesOfItems(items)
    case Object(members) => 1 + NodesOfMembers(members)
  }

  function NodesOfItems(items: seq<Tree>): (n: nat) {
    if items == [] then 0 else Nodes(items[0]) + NodesOfItems(items[1..])
  }

  function NodesOfMembers(members: seq<Member>): (n: nat) {
    if members == [] then 0 else 1 + Nodes(members[0].value) + NodesOfMembers(members[1..])
  }

  function Max(a: nat, b: nat): (c: nat) {
    if a < b then b else a
  }

  /** How deep containers nest. */
  function Depth(t: Tree): (n: nat) {
    match t
    case Scalar(_) => 0
    case Array(items) => 1 + DepthOfItems(items)
    case Object(members) => 1 + DepthOfMembers(members)
  }

  function DepthOfItems(items: seq<Tree>): (n: nat) {
    if items == [] then 0 else Max(Depth(items[0]), DepthOfItems(items[1..]))
  }

  function DepthOfMembers(members: seq<Member>): (n: nat) {
    if members == [] then 0 else Max(Depth(members[0].value), DepthOfMembers(members[1..]))
  }

  // ----- events -----

  datatype Event = ScalarEvent(value: Value) | KeyEvent(key: string) | Start(isArray: bool) | End(isArray: bool)

  function Events(t: Tree): (r: seq<Event>) {
    match t
    case Scalar(value) => [ScalarEvent(value)]
    case Array(items) => [Start(true)] + EventsOfItems(items) + [End(true)]
    case Object(members) => [Start(false)] + EventsOfMembers(members) + [End(false)]
  }

  function EventsOfItems(items: seq<Tree>): (r: seq<Event>) {
    if items == [] then [] else Events(items[0]) + EventsOfItems(items[1..])
  }

  function EventsOfMembers(members: seq<Member>): (r: seq<Event>) {
    if members == [] then []
    else [KeyEvent(members[0].key)] + Events(members[0].value) + EventsOfMembers(members[1..])
  }

  // ----- the handler -----

  /** One level of the parallel stacks: the table under construction, its kind, how many items it
      has, and the key that was pending when it was opened. */
  datatype Frame = Frame(entries: map<Key, Value>, isArray: bool, index: nat, key: string)

  datatype Handler = Handler(depth: nat, nodes: nat, failed: bool, root: Value, stack: seq<Frame>, pendingKey: string)

  const FRESH := Handler(0, 0, false, Nil, [], "")

  function Top(h: Handler): (f: Frame)
    requires h.stack != []
  {
    h.stack[|h.stack| - 1]
  }

  function Pop(h: Handler): (s: seq<Frame>)
    requires h.stack != []
  {
    h.stack[..|h.stack| - 1]
  }

  function Added(f: Frame, key: string, value: Value): (r: Frame) {
    if f.isArray then f.(entries := Put(f.entries, Index(f.index + 1), value), index := f.index + 1)
    else f.(entries := Put(f.entries, Name(key), value))
  }

  function Attach(h: Handler, key: string, value: Value): (r: Handler) {
    if h.stack == [] then h.(root := value)
    else h.(stack := Pop(h) + [Added(Top(h), key, value)])
  }

  function Counted(l: Limits, h: Handler): (r: Handler) {
    h.(nodes := h.nodes + 1, failed := h.nodes + 1 > l.maxNodes)
  }

  function Step(l: Limits, h: Handler, e: Event): (r: Handler) {
    if h.failed then h else
      match e
      case ScalarEvent(value) =>
        var c := Counted(l, h);
        if c.failed then c else Attach(c, c.pendingKey, value)
      case KeyEvent(key) =>
        var c := Counted(l, h);
        if c.failed then c else c.(pendingKey := key)
      case Start(isArray) =>
        if h.depth >= l.maxDepth then h.(failed := true)
        else
          var c := Counted(l, h);
          if c.failed then c
          else c.(depth := c.depth + 1, stack := c.stack + [Frame(map[], isArray, 0, c.pendingKey)])
      case End(_) =>
        if h.stack == [] || h.depth == 0 then h
        else Attach(h.(depth := h.depth - 1, stack := Pop(h)), Top(h).key, Table(Top(h).entries))
  }

  function Feed(l: Limits, h: Handler, events: seq<Event>): (r: Handler)
    decreases |events|
  {
    if events == [] || h.failed then h else Feed(l, Step(l, h, events[0]), events[1..])
  }

  // ----- the handler builds the tree -----

  predicate Fits(l: Limits, h: Handler, depth: nat, nodes: nat) {
    h.depth + depth <= l.maxDepth && h.nodes + nodes <= l.maxNodes
  }

  predicate Sound(l: Limits, h: Handler) {
    !h.failed && h.depth == |h.stack| && h.depth <= l.maxDepth && h.nodes <= l.maxNodes
  }

  /** The key pending after the events of a tree. */
  function LastKey(t: Tree, key: string): (r: string) {
    match t
    case Scalar(_) => key
    case Array(items) => LastKeyOfItems(items, key)
    case Object(members) => LastKeyOfMembers(members, key)
  }

  function LastKeyOfItems(items: seq<Tree>, key: string): (r: string) {
    if items == [] then key else LastKeyOfItems(items[1..], LastKey(items[0], key))
  }

  function LastKeyOfMembers(members: seq<Member>, key: string): (r: string) {
    if members == [] then key else LastKeyOfMembers(members[1..], LastKey(members[0].value, members[0].key))
  }

  /** The handler after it has taken in a whole value. */
  function Taken(h: Handler, t: Tree): (r: Handler) {
    Attach(h, h.pendingKey, Build(t)).(nodes := h.nodes + Nodes(t), pendingKey := LastKey(t, h.pendingKey))
  }

  function TakenItems(h: Handler, items: seq<Tree>): (r: Handler)
    requires h.stack != []
  {
    var f := Top(h);
    h.(stack := Pop(h) + [f.(entries := BuildItems(f.entries, f.index, items), index := f.index + |items|)],
       nodes := h.nodes + NodesOfItems(items), pendingKey := LastKeyOfItems(items, h.pendingKey))
  }

  function TakenMembers(h: Handler, members: seq<Member>): (r: Handler)
    requires h.stack != []
  {
    var f := Top(h);
    h.(stack := Pop(h) + [f.(entries := BuildMembers(f.entries, members))],
       nodes := h.nodes + NodesOfMembers(members), pendingKey := LastKeyOfMembers(members, h.pendingKey))
  }

  lemma FeedOne(l: Limits, h: Handler, e: Event, rest: seq<Event>)
    requires !h.failed
    ensures Feed(l, h, [e] + rest) == Feed(l, Step(l, h, e), rest)
  {
    assert ([e] + rest)[1..] == rest;
  }

  lemma FeedFailed(l: Limits, h: Handler, rest: seq<Event>)
    requires h.failed
    ensures Feed(l, h, rest) == h
  {
  }

  /** Feeding the events of a tree, whatever follows: the tree is taken in when it fits, and the
      handler fails when it does not. */
  lemma {:induction false} FeedTree(l: Limits, h: Handler, t: Tree, rest: seq<Event>)
    requires Sound(l, h)
    ensures Fits(l, h, Depth(t), Nodes(t)) ==>
      Feed(l, h, Events(t) + rest) == Feed(l, Taken(h, t), rest) && Sound(l, Taken(h, t))
    ensures !Fits(l, h, Depth(t), Nodes(t)) ==> Feed(l, h, Events(t) + rest).failed
    decreases t, 1
  {
    hide Feed;
    match t
    case Scalar(value) => FeedScalar(l, h, value, rest);
    case Array(items) => FeedArray(l, h, items, rest);
    case Object(members) => FeedObject(l, h, members, rest);
  }

  lemma FeedScalar(l: Limits, h: Handler, value: Value, rest: seq<Event>)
    requires Sound(l, h)
    ensures var t := Scalar(value);
      if Fits(l, h, 0, 1) then Feed(l, h, Events(t) + rest) == Feed(l, Taken(h, t), rest) && Sound(l, Taken(h, t))
      else Feed(l, h, Events(t) + rest).failed
  {
    hide Feed;
    FeedOne(l, h, ScalarEvent(value), rest);
    if !Fits(l, h, 0, 1) {
      FeedFailed(l, Step(l, h, ScalarEvent(value)), rest);
    }
  }

  /** A container opened in h, and the same container when it is complete. */
  function Entered(h: Handler, isArray: bool): (r: Handler) {
    h.(depth := h.depth + 1, nodes := h.nodes + 1, stack := h.stack + [Frame(map[], isArray, 0, h.pendingKey)])
  }

  lemma FeedStart(l: Limits, h: Handler, isArray: bool, rest: seq<Event>)
    requires Sound(l, h)
    ensures if Fits(l, h, 1, 1) then
        Feed(l, h, [Start(isArray)] + rest) == Feed(l, Entered(h, isArray), rest) && Sound(l, Entered(h, isArray))
      else Feed(l, h, [Start(isArray)] + rest).failed
  {
    hide Feed;
    FeedOne(l, h, Start(isArray), rest);
    if !Fits(l, h, 1, 1) {
      FeedFailed(l, Step(l, h, Start(isArray)), rest);
    }
  }

  lemma FeedEnd(l: Limits, h: Handler, inner: Handler, isArray: bool, entries: map<Key, Value>, index: nat,
                rest: seq<Event>)
    requires Sound(l, h) && Sound(l, inner)
    requires inner.depth == h.depth + 1 && inner.root == h.root
    requires inner.stack == h.stack + [Frame(entries, isArray, index, h.pendingKey)]
    ensures var closed := Attach(h, h.pendingKey, Table(entries)).(nodes := inner.nodes,
                                                                   pendingKey := inner.pendingKey);
      Feed(l, inner, [End(isArray)] + rest) == Feed(l, closed, rest) && Sound(l, closed)
  {
    hide Feed;
    FeedOne(l, inner, End(isArray), rest);
    assert Pop(inner) == h.stack;
  }

  lemma {:induction false} FeedArray(l: Limits, h: Handler, items: seq<Tree>, rest: seq<Event>)
    requires Sound(l, h)
    ensures var t := Array(items);
      if Fits(l, h, Depth(t), Nodes(t)) then Feed(l, h, Events(t) + rest) == Feed(l, Taken(h, t), rest) &&
        Sound(l, Taken(h, t))
      else Feed(l, h, Events(t) + rest).failed
    decreases items, 1
  {
    hide Feed, EventsOfItems, NodesOfItems, DepthOfItems, BuildItems, LastKeyOfItems, Attach;
    var t := Array(items);
    var inside := EventsOfItems(items) + ([End(true)] + rest);
    assert Events(t) + rest == [Start(true)] + inside;
    FeedStart(l, h, true, inside);
    if Fits(l, h, 1, 1) {
      var e := Entered(h, true);
      FeedItems(l, e, items, [End(true)] + rest);
      if Fits(l, h, Depth(t), Nodes(t)) {
        var full := TakenItems(e, items);
        assert full.stack == h.stack + [Frame(BuildItems(map[], 0, items), true, |items|, h.pendingKey)];
        FeedEnd(l, h, full, true, BuildItems(map[], 0, items), |items|, rest);
      }
    }
  }

  lemma {:induction false} FeedItems(l: Limits, h: Handler, items: seq<Tree>, rest: seq<Event>)
    requires Sound(l, h) && h.stack != [] && Top(h).isArray
    ensures if Fits(l, h, DepthOfItems(items), NodesOfItems(items)) then
        Feed(l, h, EventsOfItems(items) + rest) == Feed(l, TakenItems(h, items), rest) && Sound(l, TakenItems(h, items))
      else Feed(l, h, EventsOfItems(items) + rest).failed
    decreases items, 0
  {
    hide Feed, Events, Nodes, Depth, Build, LastKey;
    if items == [] {
      assert EventsOfItems(items) + rest == rest;
      assert h.stack == Pop(h) + [Top(h)];
      assert TakenItems(h, items) == h;
    } else {
      var first, others := items[0], items[1..];
      assert EventsOfItems(items) + rest == Events(first) + (EventsOfItems(others) + rest);
      FeedTree(l, h, first, EventsOfItems(others) + rest);
      if Fits(l, h, Depth(first), Nodes(first)) {
        var next := Taken(h, first);
        assert Top(next) == Added(Top(h), h.pendingKey, Build(first)) && Pop(next) == Pop(h);
        FeedItems(l, next, others, rest);
        assert TakenItems(next, others) == TakenItems(h, items);
      }
    }
  }

  lemma {:induction false} FeedObject(l: Limits, h: Handler, members: seq<Member>, rest: seq<Event>)
    requires Sound(l, h)
    ensures var t := Object(members);
      if Fits(l, h, Depth(t), Nodes(t)) then Feed(l, h, Events(t) + rest) == Feed(l, Taken(h, t), rest) &&
        Sound(l, Taken(h, t))
      else Feed(l, h, Events(t) + rest).failed
    decreases members, 1
  {
    hide Feed, EventsOfMembers, NodesOfMembers, DepthOfMembers, BuildMembers, LastKeyOfMembers, Attach;
    var t := Object(members);
    var inside := EventsOfMembers(members) + ([End(false)] + rest);
    assert Events(t) + rest == [Start(false)] + inside;
    FeedStart(l, h, false, inside);
    if Fits(l, h, 1, 1) {
      var e := Entered(h, false);
      FeedMembers(l, e, members, [End(false)] + rest);
      if Fits(l, h, Depth(t), Nodes(t)) {
        var full := TakenMembers(e, members);
        assert full.stack == h.stack + [Frame(BuildMembers(map[], members), false, 0, h.pendingKey)];
        FeedEnd(l, h, full, false, BuildMembers(map[], members), 0, rest);
      }
    }
  }

  lemma FeedKey(l: Limits, h: Handler, key: string, rest: seq<Event>)
    requires Sound(l, h)
    ensures if Fits(l, h, 0, 1) then
        var keyed := h.(nodes := h.nodes + 1, pendingKey := key);
        Feed(l, h, [KeyEvent(key)] + rest) == Feed(l, keyed, rest) && Sound(l, keyed)
      else Feed(l, h, [KeyEvent(key)] + rest).failed
  {
    hide Feed;
    FeedOne(l, h, KeyEvent(key), rest);
    if !Fits(l, h, 0, 1) {
      FeedFailed(l, Step(l, h, KeyEvent(key)), rest);
    }
  }

  lemma {:induction false} FeedMembers(l: Limits, h: Handler, members: seq<Member>, rest: seq<Event>)
    requires Sound(l, h) && h.stack != [] && !Top(h).isArray
    ensures if Fits(l, h, DepthOfMembers(members), NodesOfMembers(members)) then
        Feed(l, h, EventsOfMembers(members) + rest) == Feed(l, TakenMembers(h, members), rest) &&
          Sound(l, TakenMembers(h, members))
      else Feed(l, h, EventsOfMembers(members) + rest).failed
    decreases members, 0
  {
    hide Feed, Events, Nodes, Depth, Build, LastKey;
    if members == [] {
      assert EventsOfMembers(members) + rest == rest;
      assert h.stack == Pop(h) + [Top(h)];
      assert TakenMembers(h, members) == h;
    } else {
      var first, others := members[0], members[1..];
      var after := EventsOfMembers(others) + rest;
      assert EventsOfMembers(members) + rest == [KeyEvent(first.key)] + (Events(first.value) + after);
      FeedKey(l, h, first.key, Events(first.value) + after);
      if Fits(l, h, 0, 1) {
        var keyed := h.(nodes := h.nodes + 1, pendingKey := first.key);
        FeedTree(l, keyed, first.value, after);
        if Fits(l, keyed, Depth(first.value), Nodes(first.value)) {
          var next := Taken(keyed, first.value);
          assert Top(next) == Added(Top(h), first.key, Build(first.value)) && Pop(next) == Pop(h);
          FeedMembers(l, next, others, rest);
          assert TakenMembers(next, others) == TakenMembers(h, members);
        }
      }
    }
  }

  /** Feeding a whole document: exactly when nesting and size stay within the limits the handler ends
      with all its stacks empty and with the tree's value; otherwise it fails. */
  lemma HandlerBuildsTree(l: Limits, t: Tree)
    ensures var h := Feed(l, FRESH, Events(t));
      && (h.failed <==> Depth(t) > l.maxDepth || Nodes(t) > l.maxNodes)
      && (!h.failed ==> h.stack == [] && h.depth == 0 && h.nodes == Nodes(t) && h.root == Build(t))
  {
    FeedTree(l, FRESH, t, []);
    assert Events(t) + [] == Events(t);
  }
}
