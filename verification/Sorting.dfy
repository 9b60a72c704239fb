/** Sorting by an integer key. The source calls std::sort, which promises a sorted permutation and
    no order among equal keys; results that must hold for every such order quantify over
    `IsSortOf`. */
module Sorting {
  predicate SortedBy<T(!new)>(s: seq<T>, key: T -> int) {
    forall i, j | 0 <= i < j < |s| :: key(s[i]) <= key(s[j])
  }

  /** `sorted` is one of the results std::sort may give for `s`. */
  ghost predicate IsSortOf<T(!new)>(sorted: seq<T>, s: seq<T>, key: T -> int) {
    multiset(sorted) == multiset(s) && SortedBy(sorted, key)
  }

  function Insert<T(!new)>(x: T, s: seq<T>, key: T -> int): (r: seq<T>)
    ensures multiset(r) == multiset{x} + multiset(s)
  {
    if s == [] || key(x) <= key(s[0]) then [x] + s
    else
      assert s == [s[0]] + s[1..];
      [s[0]] + Insert(x, s[1..], key)
  }

  function Sort<T(!new)>(s: seq<T>, key: T -> int): (r: seq<T>)
    ensures multiset(r) == multiset(s)
  {
    if s == [] then [] else
      assert s == [s[0]] + s[1..];
      Insert(s[0], Sort(s[1..], key), key)
  }

  lemma {:induction false} InsertKeepsSorted<T(!new)>(x: T, s: seq<T>, key: T -> int)
    requires SortedBy(s, key)
    ensures SortedBy(Insert(x, s, key), key)
  {
    if s != [] && key(s[0]) < key(x) {
      var rest := Insert(x, s[1..], key);
      InsertKeepsSorted(x, s[1..], key);
      forall y | y in rest ensures key(s[0]) <= key(y) {
        assert y in multiset(rest);
        if y != x { assert y in s[1..]; }
      }
      LeastFirst(s[0], rest, key);
    }
  }

  lemma LeastFirst<T(!new)>(x: T, s: seq<T>, key: T -> int)
    requires SortedBy(s, key) && forall y | y in s :: key(x) <= key(y)
    ensures SortedBy([x] + s, key)
  {}

  lemma {:induction false} SortSorts<T(!new)>(s: seq<T>, key: T -> int)
    ensures IsSortOf(Sort(s, key), s, key)
  {
    if s != [] {
      SortSorts(s[1..], key);
      InsertKeepsSorted(s[0], Sort(s[1..], key), key);
    }
  }

  lemma {:induction false} CountTwice<T>(s: seq<T>, x: T)
    ensures multiset(s)[x] >= 2 <==> exists i, j :: 0 <= i < j < |s| && s[i] == x && s[j] == x
    ensures multiset(s)[x] >= 1 <==> x in s
  {
    if s != [] {
      var t := s[..|s| - 1];
      assert s == t + [s[|s| - 1]];
      CountTwice(t, x);
      if s[|s| - 1] == x && x in t {
        var i :| 0 <= i < |t| && t[i] == x;
        assert s[i] == x && s[|s| - 1] == x;
      }
      if i, j :| 0 <= i < j < |s| && s[i] == x && s[j] == x {
        assert t[i] == x;
        if j < |t| { assert t[j] == x; }
      }
    }
  }

  lemma SameElements<T(!new)>(a: seq<T>, b: seq<T>)
    requires multiset(a) == multiset(b)
    ensures |a| == |b|
    ensures forall x :: x in a <==> x in b
  {
    forall x ensures x in a <==> x in b {
      assert x in multiset(a) <==> x in multiset(b);
    }
    assert |a| == |multiset(a)| && |b| == |multiset(b)|;
  }
}
