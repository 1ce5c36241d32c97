/** Directory trees, and the comparison that decides whether an installed copy may be reused. */
module PackageTree {
  import opened Sorting

  datatype Tree = File(content: seq<int>) | Directory(entries: map<string, Tree>) | Link

  predicate ContainsSymlink(t: Tree) {
    match t
    case File(_) => false
    case Link => true
    case Directory(entries) => exists name :: name in entries && ContainsSymlink(entries[name])
  }

  function NameKey(): (key: string -> seq<string>) {
    (name: string) => [name]
  }

  /** The names in a directory, in whatever order they are enumerated. */
  method Names(entries: map<string, Tree>) returns (names: seq<string>)
    ensures Distinct(names) && forall n :: n in names <==> n in entries
  {
    names := [];
    var rest := entries.Keys;
    while rest != {}
      invariant Distinct(names) && rest <= entries.Keys
      invariant forall n :: n in names <==> n in entries.Keys - rest
    {
      var name :| name in rest;
      forall i | 0 <= i < |names| ensures names[i] != name {
        assert names[i] in names;
      }
      names := names + [name];
      rest := rest - {name};
    }
  }

  lemma SortedNamesAgree(left: seq<string>, right: seq<string>, lefts: seq<string>, rights: seq<string>)
    requires Uniform(NameKey(), 1) && IsSort(NameKey(), 1, left, lefts) && IsSort(NameKey(), 1, right, rights)
    requires Distinct(left) && Distinct(right)
    ensures lefts == rights <==> (forall n :: n in left <==> n in right)
  {
    hide SortedBy;
    SameMembers(left, lefts);
    SameMembers(right, rights);
    if forall n :: n in left <==> n in right {
      SameElements(left, right);
      SortIsUnique(NameKey(), 1, lefts, rights);
    }
  }

  lemma SameMembers(xs: seq<string>, ys: seq<string>)
    requires multiset(xs) == multiset(ys)
    ensures forall n :: n in xs <==> n in ys
  {
    PermutationFacts(xs, ys);
    PermutationFacts(ys, xs);
  }

  /** The names in a directory in sorted order; two directories have the same names exactly when
      these agree. */
  method SortedNames(entries: map<string, Tree>) returns (names: seq<string>, ghost listed: seq<string>)
    ensures forall n :: n in names <==> n in entries
    ensures forall n :: n in listed <==> n in entries
    ensures Distinct(listed) && Uniform(NameKey(), 1) && IsSort(NameKey(), 1, listed, names)
  {
    names := Names(entries);
    listed := names;
    SortIsSort(NameKey(), 1, names);
    names := Sort(NameKey(), 1, names);
    SameMembers(listed, names);
  }

  /** Names are compared first, sorted; then the entries, directory against directory. The answer is
      whether the trees are equal. */
  method DirectoriesEqual(left: Tree, right: Tree) returns (same: bool)
    requires left.Directory? && right.Directory? && !ContainsSymlink(left) && !ContainsSymlink(right)
    ensures same <==> left == right
    decreases left
  {
    hide Distinct, Uniform, IsSort, NameKey;
    var leftNames, lefts := SortedNames(left.entries);
    var rightNames, rights := SortedNames(right.entries);
    SortedNamesAgree(lefts, rights, leftNames, rightNames);
    if leftNames != rightNames {
      return false;
    }
    assert left.entries.Keys == right.entries.Keys;
    for i := 0 to |leftNames|
      invariant forall j :: 0 <= j < i ==> left.entries[leftNames[j]] == right.entries[leftNames[j]]
    {
      assert leftNames[i] in leftNames;
      var l, r := left.entries[leftNames[i]], right.entries[leftNames[i]];
      assert !ContainsSymlink(l) && !ContainsSymlink(r);
      if l.Directory? != r.Directory? {
        return false;
      }
      if l.Directory? {
        var equal := DirectoriesEqual(l, r);
        if !equal {
          return false;
        }
      } else if l.content != r.content {
        return false;
      }
    }
    assert left.entries == right.entries;
    return true;
  }
}
