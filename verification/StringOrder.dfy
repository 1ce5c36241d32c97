/** The byte order of strings and the lexicographic order of string tuples, both strict and total. */
module StringOrder {
  predicate Less(a: string, b: string) {
    b != [] && (a == [] || a[0] < b[0] || (a[0] == b[0] && Less(a[1..], b[1..])))
  }

  lemma {:induction false} LessIsStrict(a: string, b: string)
    requires Less(a, b)
    ensures a != b && !Less(b, a)
  {
    if a != [] && a[0] == b[0] {
      LessIsStrict(a[1..], b[1..]);
    }
  }

  lemma {:induction false} LessIsTotal(a: string, b: string)
    ensures a == b || Less(a, b) || Less(b, a)
  {
    if a != [] && b != [] && a[0] == b[0] {
      LessIsTotal(a[1..], b[1..]);
      assert a == [a[0]] + a[1..] && b == [b[0]] + b[1..];
    }
  }

  lemma {:induction false} LessIsTransitive(a: string, b: string, c: string)
    requires Less(a, b) && Less(b, c)
    ensures Less(a, c)
  {
    if a != [] && a[0] == b[0] && b[0] == c[0] {
      LessIsTransitive(a[1..], b[1..], c[1..]);
    }
  }

  predicate TupleLess(a: seq<string>, b: seq<string>)
    requires |a| == |b|
  {
    a != [] && (Less(a[0], b[0]) || (a[0] == b[0] && TupleLess(a[1..], b[1..])))
  }

  lemma {:induction false} TupleLessIsStrict(a: seq<string>, b: seq<string>)
    requires |a| == |b| && TupleLess(a, b)
    ensures a != b && !TupleLess(b, a)
  {
    if Less(a[0], b[0]) {
      LessIsStrict(a[0], b[0]);
    } else {
      TupleLessIsStrict(a[1..], b[1..]);
    }
  }

  lemma {:induction false} TupleLessIsTotal(a: seq<string>, b: seq<string>)
    requires |a| == |b|
    ensures a == b || TupleLess(a, b) || TupleLess(b, a)
  {
    if a != [] {
      LessIsTotal(a[0], b[0]);
      TupleLessIsTotal(a[1..], b[1..]);
      assert a == [a[0]] + a[1..] && b == [b[0]] + b[1..];
    }
  }

  lemma {:induction false} TupleLessIsTransitive(a: seq<string>, b: seq<string>, c: seq<string>)
    requires |a| == |b| == |c| && TupleLess(a, b) && TupleLess(b, c)
    ensures TupleLess(a, c)
  {
    if Less(a[0], b[0]) && Less(b[0], c[0]) {
      LessIsTransitive(a[0], b[0], c[0]);
    } else if a[0] == b[0] && b[0] == c[0] {
      TupleLessIsTransitive(a[1..], b[1..], c[1..]);
    }
  }
}
