/** Stable sorting by a comparator, and what "the first k of a set" means. */
module Sorting {

  /** `before` is a strict total order on the elements of `s`. */
  ghost predicate Orders<T(!new)>(before: (T, T) -> bool, s: set<T>) {
    && (forall x :: x in s ==> !before(x, x))
    && (forall x, y :: x in s && y in s && x != y ==> before(x, y) || before(y, x))
    && (forall x, y, z :: x in s && y in s && z in s && before(x, y) && before(y, z) ==> before(x, z))
  }

  ghost predicate SortedBy<T(!new)>(before: (T, T) -> bool, s: seq<T>) {
    forall i, j :: 0 <= i < j < |s| ==> before(s[i], s[j])
  }

  predicate Distinct<T(==)>(s: seq<T>) {
    forall i, j :: 0 <= i < j < |s| ==> s[i] != s[j]
  }

  function Elements<T>(s: seq<T>): set<T> {
    set x | x in s
  }

  function Take<T>(s: seq<T>, k: nat): (r: seq<T>)
    ensures r <= s && |r| == if k < |s| then k else |s|
  {
    if k < |s| then s[..k] else s
  }

  /** A stable insertion sort: an element goes in front of the ones it is not after. */
  function Insert<T>(before: (T, T) -> bool, x: T, s: seq<T>): seq<T> {
    if s == [] then [x]
    else if !before(s[0], x) then [x] + s
    else [s[0]] + Insert(before, x, s[1..])
  }

  function Sort<T>(before: (T, T) -> bool, s: seq<T>): seq<T> {
    if s == [] then [] else Insert(before, s[0], Sort(before, s[1..]))
  }

  lemma {:induction false} InsertKeeps<T>(before: (T, T) -> bool, x: T, s: seq<T>)
    ensures multiset(Insert(before, x, s)) == multiset(s) + multiset{x}
  {
    if s != [] {
      assert s == [s[0]] + s[1..];
      InsertKeeps(before, x, s[1..]);
    }
  }

  lemma {:induction false} SortKeeps<T>(before: (T, T) -> bool, s: seq<T>)
    ensures multiset(Sort(before, s)) == multiset(s)
  {
    if s != [] {
      assert s == [s[0]] + s[1..];
      SortKeeps(before, s[1..]);
      InsertKeeps(before, s[0], Sort(before, s[1..]));
    }
  }

  lemma FirstIsMember<T>(s: seq<T>)
    ensures s == [] || s[0] in s
  {
  }

  lemma AppendDistinct<T>(s: seq<T>, x: T)
    requires Distinct(s) && x !in s
    ensures Distinct(s + [x])
  {
  }

  lemma AppearsTwice<T>(s: seq<T>, i: nat, j: nat)
    requires i < j < |s|
    ensures s[i] == s[j] ==> multiset(s)[s[j]] >= 2
  {
    assert s == s[..j] + [s[j]] + s[j + 1..];
    assert s[i] in s[..j];
  }

  lemma SameMultiset<T>(a: seq<T>, b: seq<T>)
    requires multiset(a) == multiset(b)
    ensures |a| == |b|
    ensures forall x :: x in a <==> x in b
    ensures Elements(a) == Elements(b)
    ensures Distinct(b) ==> Distinct(a)
  {
    assert |a| == |multiset(a)| == |multiset(b)| == |b|;
    forall x ensures x in a <==> x in b {
      assert x in a <==> x in multiset(a);
      assert x in b <==> x in multiset(b);
    }
    if Distinct(b) {
      DistinctCounts(b);
      forall i, j | 0 <= i < j < |a| ensures a[i] != a[j] {
        AppearsTwice(a, i, j);
        assert a[j] in b;
      }
    }
  }

  lemma {:induction false} DistinctCounts<T>(s: seq<T>)
    requires Distinct(s)
    ensures forall x :: x in s ==> multiset(s)[x] == 1
    ensures |Elements(s)| == |s|
  {
    if s == [] {
      assert Elements(s) == {};
    } else {
      var rest := s[1..];
      assert s == [s[0]] + rest;
      DistinctCounts(rest);
      assert s[0] !in rest;
      assert multiset(rest)[s[0]] == 0;
      assert Elements(s) == {s[0]} + Elements(rest);
      forall x | x in s ensures multiset(s)[x] == 1 {
        if x != s[0] { assert x in rest; }
      }
    }
  }

  lemma {:induction false} InsertSorts<T(!new)>(before: (T, T) -> bool, x: T, s: seq<T>, dom: set<T>)
    requires Orders(before, dom) && x in dom && Elements(s) <= dom && x !in s && SortedBy(before, s)
    ensures SortedBy(before, Insert(before, x, s))
  {
    if s != [] {
      assert s[0] in Elements(s);
      if !before(s[0], x) {
        forall j | 0 <= j < |s| ensures before(x, s[j]) {
          assert s[j] in Elements(s);
        }
      } else {
        var rest := s[1..];
        assert Elements(rest) <= Elements(s) by {
          forall y | y in rest ensures y in s {}
        }
        InsertSorts(before, x, rest, dom);
        InsertKeeps(before, x, rest);
        var ins := Insert(before, x, rest);
        forall j | 0 <= j < |ins| ensures before(s[0], ins[j]) {
          assert ins[j] in multiset(ins);
          assert ins[j] == x || ins[j] in rest;
        }
      }
    }
  }

  /** Sorting distinct elements that the comparator orders totally gives the ordered arrangement. */
  lemma {:induction false} SortSorts<T(!new)>(before: (T, T) -> bool, s: seq<T>)
    requires Distinct(s) && Orders(before, Elements(s))
    ensures SortedBy(before, Sort(before, s))
    ensures |Sort(before, s)| == |s| && Distinct(Sort(before, s))
    ensures Elements(Sort(before, s)) == Elements(s)
  {
    SortKeeps(before, s);
    SameMultiset(Sort(before, s), s);
    if s != [] {
      var rest := s[1..];
      assert Elements(rest) <= Elements(s) by {
        forall y | y in rest ensures y in s {}
      }
      SortSorts(before, rest);
      assert s[0] !in rest;
      SortKeeps(before, rest);
      SameMultiset(Sort(before, rest), rest);
      assert s[0] in Elements(s);
      InsertSorts(before, s[0], Sort(before, rest), Elements(s));
    }
  }

  /** `out` is the first `k` elements of `s` in the given order. */
  ghost predicate IsTop<T(!new)>(before: (T, T) -> bool, out: seq<T>, k: nat, s: set<T>) {
    && SortedBy(before, out)
    && (forall x :: x in out ==> x in s)
    && |out| == (if k < |s| then k else |s|)
    && forall x, y :: x in s && x !in out && y in out ==> before(y, x)
  }

  lemma SortedIsDistinct<T(!new)>(before: (T, T) -> bool, s: seq<T>, dom: set<T>)
    requires Orders(before, dom) && Elements(s) <= dom && SortedBy(before, s)
    ensures Distinct(s)
  {
    forall i, j | 0 <= i < j < |s| ensures s[i] != s[j] {
      assert s[i] in Elements(s);
    }
  }

  /** The first k of the sorted arrangement of a set are its top k. */
  lemma TakeIsTop<T(!new)>(before: (T, T) -> bool, all: seq<T>, k: nat)
    requires Orders(before, Elements(all)) && SortedBy(before, all)
    ensures IsTop(before, Take(all, k), k, Elements(all))
  {
    SortedIsDistinct(before, all, Elements(all));
    DistinctCounts(all);
  }

  /** There is only one sorted arrangement of a set. */
  lemma {:induction false} SortedUnique<T(!new)>(before: (T, T) -> bool, a: seq<T>, b: seq<T>, dom: set<T>)
    requires Orders(before, dom) && Elements(a) == Elements(b) && Elements(a) <= dom
    requires SortedBy(before, a) && SortedBy(before, b)
    ensures a == b
    decreases |a|
  {
    SortedIsDistinct(before, a, dom);
    SortedIsDistinct(before, b, dom);
    DistinctCounts(a);
    DistinctCounts(b);
    if a != [] {
      assert a[0] in Elements(a) && b[0] in Elements(b);
      assert a[0] in b && b[0] in a;
      assert a[0] == b[0];
      assert Elements(a[1..]) == Elements(a) - {a[0]} by { TailElements(a); }
      assert Elements(b[1..]) == Elements(b) - {b[0]} by { TailElements(b); }
      SortedUnique(before, a[1..], b[1..], dom);
      assert a == [a[0]] + a[1..] && b == [b[0]] + b[1..];
    }
  }

  lemma TailElements<T>(s: seq<T>)
    requires s != [] && Distinct(s)
    ensures Elements(s[1..]) == Elements(s) - {s[0]}
  {
    assert s == [s[0]] + s[1..];
  }
}
