/** The event handler as it runs, with one stack per property of the open containers. */
module JsonHandler {
  import opened Json

  class ValueHandler {
    const l: Limits
    var depth: nat
    var nodes: nat
    var failed: bool
    var root: Value
    var stack: seq<map<Key, Value>>
    var isArray: seq<bool>
    var indexStack: seq<nat>
    var keyStack: seq<string>
    var pendingKey: string

    /** The stacks are as high as the nesting is deep. */
    ghost predicate Valid()
      reads this
    {
      |stack| == |isArray| == |indexStack| == |keyStack| == depth
    }

    ghost function View(): (h: Handler)
      requires Valid()
      reads this
    {
      Handler(depth, nodes, failed, root, Frames(stack, isArray, indexStack, keyStack), pendingKey)
    }

    constructor (l: Limits)
      ensures Valid() && this.l == l && View() == FRESH
    {
      this.l := l;
      depth, nodes, failed, root, pendingKey := 0, 0, false, Nil, "";
      stack, isArray, indexStack, keyStack := [], [], [], [];
    }

    method CountNode() returns (ok: bool)
      requires Valid()
      modifies this`nodes, this`failed
      ensures Valid() && nodes == old(nodes) + 1 && (ok <==> nodes <= l.maxNodes)
      ensures failed == if ok then old(failed) else true
    {
      nodes := nodes + 1;
      if nodes > l.maxNodes {
        failed := true;
        return false;
      }
      return true;
    }

    /** Adds a value to the innermost container, or makes it the root. */
    method Attach(key: string, value: Value)
      requires Valid()
      modifies this`root, this`stack, this`indexStack
      ensures Valid() && View() == Json.Attach(old(View()), key, value)
    {
      ghost var h := View();
      if stack == [] {
        root := value;
        return;
      }
      var last := |stack| - 1;
      if isArray[last] {
        stack := stack[last := Put(stack[last], Index(indexStack[last] + 1), value)];
        indexStack := indexStack[last := indexStack[last] + 1];
      } else {
        stack := stack[last := Put(stack[last], Name(key), value)];
      }
      assert View().stack == Pop(h) + [Added(Top(h), key, value)];
    }

    method StartContainer(list: bool) returns (ok: bool)
      requires Valid()
      modifies this
      ensures Valid() && View() == Step(l, old(View()), Start(list)) && (ok <==> !failed)
    {
      if failed {
        return false;
      }
      if depth >= l.maxDepth {
        failed := true;
        return false;
      }
      ok := CountNode();
      if !ok {
        return;
      }
      ghost var h := View();
      depth := depth + 1;
      stack := stack + [map[]];
      isArray := isArray + [list];
      indexStack := indexStack + [0];
      keyStack := keyStack + [pendingKey];
      assert View().stack == h.stack + [Frame(map[], list, 0, pendingKey)];
    }

    method EndContainer(list: bool) returns (ok: bool)
      requires Valid() && (failed || stack != [])
      modifies this
      ensures Valid() && View() == Step(l, old(View()), End(list)) && (ok <==> !failed)
    {
      if failed {
        return false;
      }
      ghost var h := View();
      depth := depth - 1;
      var child := stack[|stack| - 1];
      stack := stack[..|stack| - 1];
      isArray := isArray[..|isArray| - 1];
      indexStack := indexStack[..|indexStack| - 1];
      var childKey := keyStack[|keyStack| - 1];
      keyStack := keyStack[..|keyStack| - 1];
      assert View().stack == Pop(h);
      Attach(childKey, Table(child));
      return true;
    }

    method Scalar(value: Value) returns (ok: bool)
      requires Valid()
      modifies this
      ensures Valid() && View() == Step(l, old(View()), ScalarEvent(value)) && (ok <==> !failed)
    {
      if failed {
        return false;
      }
      ok := CountNode();
      if ok {
        Attach(pendingKey, value);
      }
    }

    method Key(key: string) returns (ok: bool)
      requires Valid()
      modifies this
      ensures Valid() && View() == Step(l, old(View()), KeyEvent(key)) && (ok <==> !failed)
    {
      if failed {
        return false;
      }
      ok := CountNode();
      if ok {
        pendingKey := key;
      }
    }

    /** The reader descends into a document and sends its events until the handler refuses one. The
        handler then has exactly the document's value and empty stacks, or has failed on a limit. */
    method Read(t: Tree) returns (ok: bool)
      requires Valid() && View() == FRESH
      modifies this
      ensures ok <==> Depth(t) <= l.maxDepth && Nodes(t) <= l.maxNodes
      ensures ok ==> root == Build(t) && depth == 0 && stack == []
      ensures ok <==> !failed
    {
      hide Depth, Nodes, Build, LastKey;
      ok := ReadTree(t);
    }

    method ReadTree(t: Tree) returns (ok: bool)
      requires Valid() && Sound(l, View())
      modifies this
      ensures Valid() && (ok <==> !failed)
      ensures ok <==> Fits(l, old(View()), Depth(t), Nodes(t))
      ensures ok ==> View() == Taken(old(View()), t) && Sound(l, View())
      decreases t, 1
    {
      hide BuildItems, BuildMembers, NodesOfItems, NodesOfMembers, DepthOfItems, DepthOfMembers, LastKeyOfItems,
        LastKeyOfMembers;
      ghost var h := View();
      match t
      case Scalar(value) =>
        ok := Scalar(value);
      case Array(items) =>
        ok := ReadArray(items);
      case Object(members) =>
        ok := ReadObject(members);
    }

    method ReadArray(items: seq<Tree>) returns (ok: bool)
      requires Valid() && Sound(l, View())
      modifies this
      ensures Valid() && (ok <==> !failed)
      ensures ok <==> Fits(l, old(View()), 1 + DepthOfItems(items), 1 + NodesOfItems(items))
      ensures ok ==> View() == Taken(old(View()), Array(items)) && Sound(l, View())
      decreases items, 1
    {
      hide BuildItems, NodesOfItems, DepthOfItems, LastKeyOfItems;
      ghost var h := View();
      ok := StartContainer(true);
      if !ok {
        return;
      }
      assert View() == Entered(h, true);
      ok := ReadItems(items);
      if !ok {
        return;
      }
      ContainerEnds(l, h, View(), true, BuildItems(map[], 0, items), |items|);
      ok := EndContainer(true);
    }

    method ReadObject(members: seq<Member>) returns (ok: bool)
      requires Valid() && Sound(l, View())
      modifies this
      ensures Valid() && (ok <==> !failed)
      ensures ok <==> Fits(l, old(View()), 1 + DepthOfMembers(members), 1 + NodesOfMembers(members))
      ensures ok ==> View() == Taken(old(View()), Object(members)) && Sound(l, View())
      decreases members, 1
    {
      hide BuildMembers, NodesOfMembers, DepthOfMembers, LastKeyOfMembers;
      ghost var h := View();
      ok := StartContainer(false);
      if !ok {
        return;
      }
      assert View() == Entered(h, false);
      ok := ReadMembers(members);
      if !ok {
        return;
      }
      ContainerEnds(l, h, View(), false, BuildMembers(map[], members), 0);
      ok := EndContainer(false);
    }

    method ReadItems(items: seq<Tree>) returns (ok: bool)
      requires Valid() && Sound(l, View()) && stack != [] && isArray[|isArray| - 1]
      modifies this
      ensures Valid() && (ok <==> !failed)
      ensures ok <==> Fits(l, old(View()), DepthOfItems(items), NodesOfItems(items))
      ensures ok ==> View() == TakenItems(old(View()), items) && Sound(l, View())
      decreases items, 0
    {
      hide Depth, Nodes, Build, LastKey;
      ghost var h := View();
      if items == [] {
        assert h.stack == Pop(h) + [Top(h)];
        return true;
      }
      ok := ReadTree(items[0]);
      if !ok {
        return;
      }
      ItemTaken(h, items);
      ok := ReadItems(items[1..]);
    }

    method ReadMembers(members: seq<Member>) returns (ok: bool)
      requires Valid() && Sound(l, View()) && stack != [] && !isArray[|isArray| - 1]
      modifies this
      ensures Valid() && (ok <==> !failed)
      ensures ok <==> Fits(l, old(View()), DepthOfMembers(members), NodesOfMembers(members))
      ensures ok ==> View() == TakenMembers(old(View()), members) && Sound(l, View())
      decreases members, 0
    {
      hide Depth, Nodes, Build, LastKey;
      ghost var h := View();
      if members == [] {
        assert h.stack == Pop(h) + [Top(h)];
        return true;
      }
      ok := Key(members[0].key);
      if !ok {
        return;
      }
      ok := ReadTree(members[0].value);
      if !ok {
        return;
      }
      MemberTaken(h, members);
      ok := ReadMembers(members[1..]);
    }
  }

  lemma ContainerEnds(l: Limits, h: Handler, inner: Handler, isArray: bool, entries: map<Key, Value>, index: nat)
    requires Sound(l, h) && Sound(l, inner) && inner.depth == h.depth + 1 && inner.root == h.root
    requires inner.stack == h.stack + [Frame(entries, isArray, index, h.pendingKey)]
    ensures Step(l, inner, End(isArray)) ==
      Json.Attach(h, h.pendingKey, Table(entries)).(nodes := inner.nodes, pendingKey := inner.pendingKey)
  {
    assert Pop(inner) == h.stack;
  }

  lemma ItemTaken(h: Handler, items: seq<Tree>)
    requires h.stack != [] && Top(h).isArray && items != []
    ensures Taken(h, items[0]).stack != [] && Top(Taken(h, items[0])).isArray
    ensures TakenItems(Taken(h, items[0]), items[1..]) == TakenItems(h, items)
  {
    hide Depth, Nodes, Build, LastKey;
    var next := Taken(h, items[0]);
    assert Top(next) == Added(Top(h), h.pendingKey, Build(items[0])) && Pop(next) == Pop(h);
  }

  lemma MemberTaken(h: Handler, members: seq<Member>)
    requires h.stack != [] && !Top(h).isArray && members != []
    ensures var keyed := h.(nodes := h.nodes + 1, pendingKey := members[0].key);
      var next := Taken(keyed, members[0].value);
      next.stack != [] && !Top(next).isArray && TakenMembers(next, members[1..]) == TakenMembers(h, members)
  {
    hide Depth, Nodes, Build, LastKey;
    var keyed := h.(nodes := h.nodes + 1, pendingKey := members[0].key);
    var next := Taken(keyed, members[0].value);
    assert Top(next) == Added(Top(h), members[0].key, Build(members[0].value)) && Pop(next) == Pop(h);
  }

  ghost function Frames(stack: seq<map<Key, Value>>, isArray: seq<bool>, indexes: seq<nat>, keys: seq<string>)
    : (r: seq<Frame>)
    requires |stack| == |isArray| == |indexes| == |keys|
    ensures |r| == |stack| && forall i :: 0 <= i < |r| ==> r[i] == Frame(stack[i], isArray[i], indexes[i], keys[i])
  {
    seq(|stack|, i requires 0 <= i < |stack| => Frame(stack[i], isArray[i], indexes[i], keys[i]))
  }
}
