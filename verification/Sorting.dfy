/** Sorting by a tuple of strings, specified as any sorted permutation: what the order of equal keys
    is, the specification does not say. */
module Sorting {
  import opened StringOrder

  /** All keys of one sort have the same width. */
  ghost predicate Uniform<T(!new)>(key: T -> seq<string>, width: nat) {
    forall x :: |key(x)| == width
  }

  ghost predicate SortedBy<T(!new)>(key: T -> seq<string>, width: nat, xs: seq<T>)
    requires Uniform(key, width)
  {
    forall i, j :: 0 <= i < j < |xs| ==> !TupleLess(key(xs[j]), key(xs[i]))
  }

  ghost predicate IsSort<T(!new)>(key: T -> seq<string>, width: nat, xs: seq<T>, ys: seq<T>)
    requires Uniform(key, width)
  {
    multiset(ys) == multiset(xs) && SortedBy(key, width, ys)
  }

  function Insert<T(!new)>(key: T -> seq<string>, ghost width: nat, x: T, xs: seq<T>): (ys: seq<T>)
    requires Uniform(key, width)
    ensures multiset(ys) == multiset(xs) + multiset{x}
  {
    if xs == [] then [x]
    else if TupleLess(key(x), key(xs[0])) then [x] + xs
    else
      var rest := Insert(key, width, x, xs[1..]);
      assert xs == [xs[0]] + xs[1..];
      [xs[0]] + rest
  }

  function Sort<T(!new)>(key: T -> seq<string>, ghost width: nat, xs: seq<T>): (ys: seq<T>)
    requires Uniform(key, width)
    ensures multiset(ys) == multiset(xs)
  {
    if xs == [] then [] else
      assert xs == [xs[0]] + xs[1..];
      Insert(key, width, xs[0], Sort(key, width, xs[1..]))
  }

  lemma {:induction false} InsertKeepsSorted<T(!new)>(key: T -> seq<string>, width: nat, x: T, xs: seq<T>)
    requires Uniform(key, width) && SortedBy(key, width, xs)
    ensures SortedBy(key, width, Insert(key, width, x, xs))
  {
    if xs != [] {
      var ys := Insert(key, width, x, xs);
      if TupleLess(key(x), key(xs[0])) {
        forall j | 0 <= j < |xs|
          ensures !TupleLess(key(xs[j]), key(x))
        {
          if TupleLess(key(xs[j]), key(x)) {
            TupleLessIsTransitive(key(xs[j]), key(x), key(xs[0]));
            TupleLessIsStrict(key(xs[j]), key(xs[0]));
          }
        }
      } else {
        var rest := Insert(key, width, x, xs[1..]);
        InsertKeepsSorted(key, width, x, xs[1..]);
        forall j | 0 <= j < |rest|
          ensures !TupleLess(key(rest[j]), key(xs[0]))
        {
          assert rest[j] in multiset(rest);
          assert rest[j] == x || rest[j] in xs[1..];
        }
      }
    }
  }

  lemma {:induction false} SortIsSort<T(!new)>(key: T -> seq<string>, width: nat, xs: seq<T>)
    requires Uniform(key, width)
    ensures IsSort(key, width, xs, Sort(key, width, xs))
  {
    if xs != [] {
      SortIsSort(key, width, xs[1..]);
      InsertKeepsSorted(key, width, xs[0], Sort(key, width, xs[1..]));
    }
  }

  function Without<T>(xs: seq<T>, j: nat): (r: seq<T>)
    requires j < |xs|
    ensures |r| == |xs| - 1
  {
    xs[..j] + xs[j + 1..]
  }

  lemma {:induction false} TakeOut<T>(xs: seq<T>, j: nat)
    requires j < |xs|
    ensures multiset(xs) == multiset(Without(xs, j)) + multiset{xs[j]}
  {
    assert xs == xs[..j] + [xs[j]] + xs[j + 1..];
  }

  lemma {:induction false} TakeOutBoth<T>(xs: seq<T>, i: nat, ys: seq<T>, j: nat)
    requires multiset(xs) == multiset(ys) && i < |xs| && j < |ys| && xs[i] == ys[j]
    ensures multiset(Without(xs, i)) == multiset(Without(ys, j))
  {
    TakeOut(xs, i);
    TakeOut(ys, j);
    hide Without;
    assert multiset(Without(xs, i)) == multiset(xs) - multiset{xs[i]};
    assert multiset(Without(ys, j)) == multiset(ys) - multiset{xs[i]};
  }

  /** Permutations have the same length, and each holds the other's elements. */
  lemma {:induction false} PermutationFacts<T>(xs: seq<T>, ys: seq<T>)
    requires multiset(xs) == multiset(ys)
    ensures |xs| == |ys|
    ensures forall i :: 0 <= i < |xs| ==> xs[i] in ys
  {
    assert |multiset(xs)| == |xs| && |multiset(ys)| == |ys|;
    forall i | 0 <= i < |xs|
      ensures xs[i] in ys
    {
      assert xs[i] in multiset(xs);
    }
  }

  lemma {:induction false} FirstIsLeast<T(!new)>(key: T -> seq<string>, width: nat, xs: seq<T>, y: T)
    requires Uniform(key, width) && SortedBy(key, width, xs) && y in xs
    ensures !TupleLess(key(y), key(xs[0]))
  {
    var i :| 0 <= i < |xs| && xs[i] == y;
    if i == 0 && TupleLess(key(y), key(xs[0])) {
      TupleLessIsStrict(key(y), key(xs[0]));
    }
  }

  /** The key tells the elements of xs apart. */
  ghost predicate Apart<T(!new)>(key: T -> seq<string>, xs: seq<T>) {
    forall a, b :: a in xs && b in xs && key(a) == key(b) ==> a == b
  }

  lemma {:induction false} TailIsSorted<T(!new)>(key: T -> seq<string>, width: nat, xs: seq<T>)
    requires Uniform(key, width) && xs != [] && SortedBy(key, width, xs)
    ensures SortedBy(key, width, xs[1..])
  {
    forall i, j | 0 <= i < j < |xs[1..]|
      ensures !TupleLess(key(xs[1..][j]), key(xs[1..][i]))
    {
      assert xs[1..][j] == xs[j + 1] && xs[1..][i] == xs[i + 1];
    }
  }

  lemma {:induction false} TailIsApart<T(!new)>(key: T -> seq<string>, xs: seq<T>)
    requires xs != [] && Apart(key, xs)
    ensures Apart(key, xs[1..])
  {
    assert forall a :: a in xs[1..] ==> a in xs;
  }

  lemma {:induction false} WithoutFirst<T>(xs: seq<T>)
    requires xs != []
    ensures Without(xs, 0) == xs[1..] && xs == [xs[0]] + xs[1..]
  {
  }

  /** Two sorted arrangements of the same elements are equal when the key tells the elements apart. */
  lemma {:induction false} SortIsUnique<T(!new)>(key: T -> seq<string>, width: nat, xs: seq<T>, ys: seq<T>)
    requires Uniform(key, width) && SortedBy(key, width, xs) && SortedBy(key, width, ys)
    requires multiset(xs) == multiset(ys)
    requires Apart(key, xs)
    ensures xs == ys
  {
    PermutationFacts(xs, ys);
    if xs != [] {
      hide SortedBy, Without, Apart;
      SameFirst(key, width, xs, ys);
      TakeOutBoth(xs, 0, ys, 0);
      TailIsSorted(key, width, xs);
      TailIsSorted(key, width, ys);
      TailIsApart(key, xs);
      WithoutFirst(xs);
      WithoutFirst(ys);
      SortIsUnique(key, width, xs[1..], ys[1..]);
    }
  }

  lemma {:induction false} SameFirst<T(!new)>(key: T -> seq<string>, width: nat, xs: seq<T>, ys: seq<T>)
    requires Uniform(key, width) && SortedBy(key, width, xs) && SortedBy(key, width, ys)
    requires multiset(xs) == multiset(ys) && xs != [] && ys != []
    requires Apart(key, xs)
    ensures xs[0] == ys[0]
  {
    hide SortedBy;
    PermutationFacts(xs, ys);
    PermutationFacts(ys, xs);
    assert xs[0] in ys && ys[0] in xs;
    FirstIsLeast(key, width, xs, ys[0]);
    FirstIsLeast(key, width, ys, xs[0]);
    TupleLessIsTotal(key(xs[0]), key(ys[0]));
  }

  // ----- filtering and mapping rearranged sequences -----

  function Filter<T>(p: T -> bool, xs: seq<T>): (ys: seq<T>) {
    if xs == [] then [] else
      Filter(p, xs[..|xs| - 1]) + if p(xs[|xs| - 1]) then [xs[|xs| - 1]] else []
  }

  function Map<T, U>(f: T -> U, xs: seq<T>): (ys: seq<U>)
    ensures |ys| == |xs| && forall i :: 0 <= i < |xs| ==> ys[i] == f(xs[i])
  {
    seq(|xs|, i requires 0 <= i < |xs| => f(xs[i]))
  }

  lemma {:induction false} FilterCounts<T>(p: T -> bool, xs: seq<T>, x: T)
    ensures multiset(Filter(p, xs))[x] == if p(x) then multiset(xs)[x] else 0
  {
    if xs != [] {
      var n := |xs| - 1;
      assert xs == xs[..n] + [xs[n]];
      FilterCounts(p, xs[..n], x);
    }
  }

  lemma {:induction false} FilterKeepsPermutation<T(!new)>(p: T -> bool, xs: seq<T>, ys: seq<T>)
    requires multiset(xs) == multiset(ys)
    ensures multiset(Filter(p, xs)) == multiset(Filter(p, ys))
  {
    forall x
      ensures multiset(Filter(p, xs))[x] == multiset(Filter(p, ys))[x]
    {
      FilterCounts(p, xs, x);
      FilterCounts(p, ys, x);
    }
  }

  lemma {:induction false} FilterKeepsSorted<T(!new)>(key: T -> seq<string>, width: nat, p: T -> bool, xs: seq<T>)
    requires Uniform(key, width) && SortedBy(key, width, xs)
    ensures SortedBy(key, width, Filter(p, xs))
    ensures forall i :: 0 <= i < |Filter(p, xs)| ==> p(Filter(p, xs)[i]) && Filter(p, xs)[i] in xs
  {
    if xs != [] {
      var n := |xs| - 1;
      FilterKeepsSorted(key, width, p, xs[..n]);
      var ys := Filter(p, xs[..n]);
      forall i | 0 <= i < |ys|
        ensures !TupleLess(key(xs[n]), key(ys[i]))
      {
        var j :| 0 <= j < n && xs[..n][j] == ys[i];
        assert xs[j] == ys[i];
      }
    }
  }

  lemma {:induction false} MapKeepsPermutation<T, U>(f: T -> U, xs: seq<T>, ys: seq<T>)
    requires multiset(xs) == multiset(ys)
    ensures multiset(Map(f, xs)) == multiset(Map(f, ys))
    decreases |xs|
  {
    PermutationFacts(xs, ys);
    if xs != [] {
      assert xs[0] in ys;
      var j :| 0 <= j < |ys| && ys[j] == xs[0];
      TakeOutBoth(xs, 0, ys, j);
      hide Map, Without;
      MapKeepsPermutation(f, Without(xs, 0), Without(ys, j));
      MapTakeOut(f, xs, 0);
      MapTakeOut(f, ys, j);
    }
  }

  lemma {:induction false} MapTakeOut<T, U>(f: T -> U, xs: seq<T>, j: nat)
    requires j < |xs|
    ensures multiset(Map(f, xs)) == multiset(Map(f, Without(xs, j))) + multiset{f(xs[j])}
  {
    TakeOut(Map(f, xs), j);
    assert Without(Map(f, xs), j) == Map(f, Without(xs, j));
  }

  lemma {:induction false} FilterOfMap<T>(f: T -> T, p: T -> bool, xs: seq<T>)
    requires forall i :: 0 <= i < |xs| ==> p(f(xs[i])) == p(xs[i])
    ensures Filter(p, Map(f, xs)) == Map(f, Filter(p, xs))
  {
    if xs != [] {
      var n := |xs| - 1;
      assert Map(f, xs)[..n] == Map(f, xs[..n]);
      FilterOfMap(f, p, xs[..n]);
    }
  }

  ghost predicate Distinct<T>(xs: seq<T>) {
    forall i, j :: 0 <= i < j < |xs| ==> xs[i] != xs[j]
  }

  lemma {:induction false} DistinctCounts<T>(xs: seq<T>, x: T)
    requires Distinct(xs)
    ensures multiset(xs)[x] == if x in xs then 1 else 0
  {
    if xs != [] {
      assert xs == [xs[0]] + xs[1..];
      DistinctCounts(xs[1..], x);
    }
  }

  /** Duplicate-free sequences with the same elements are permutations of each other. */
  lemma {:induction false} SameElements<T(!new)>(xs: seq<T>, ys: seq<T>)
    requires Distinct(xs) && Distinct(ys) && forall x :: x in xs <==> x in ys
    ensures multiset(xs) == multiset(ys)
  {
    forall x
      ensures multiset(xs)[x] == multiset(ys)[x]
    {
      DistinctCounts(xs, x);
      DistinctCounts(ys, x);
    }
  }

  lemma {:induction false} DistinctPermutation<T(!new)>(xs: seq<T>, ys: seq<T>)
    requires Distinct(xs) && multiset(xs) == multiset(ys)
    ensures Distinct(ys)
  {
    forall i, j | 0 <= i < j < |ys|
      ensures ys[i] != ys[j]
    {
      DistinctCounts(xs, ys[i]);
      assert ys == ys[..j] + [ys[j]] + ys[j + 1..];
      assert ys[i] in ys[..j];
    }
  }
}
