/** A stable sort by an integer key. */
module Sorting {

  ghost predicate Sorted<T>(s: seq<T>, key: T -> int) {
    forall i, j :: 0 <= i < j < |s| ==> key(s[i]) <= key(s[j])
  }

  /** `x` after every element whose key is not greater. */
  function Place<T>(s: seq<T>, x: T, key: T -> int): seq<T> {
    if s == [] || key(s[|s| - 1]) <= key(x) then s + [x]
    else Place(s[..|s| - 1], x, key) + [s[|s| - 1]]
  }

  function SortBy<T>(s: seq<T>, key: T -> int): seq<T> {
    if s == [] then [] else Place(SortBy(s[..|s| - 1], key), s[|s| - 1], key)
  }

  method Sort<T>(s: seq<T>, key: T -> int) returns (r: seq<T>)
    ensures r == SortBy(s, key)
  {
    r := [];
    assert s[..0] == [];
    for i := 0 to |s|
      invariant r == SortBy(s[..i], key)
    {
      assert s[..i + 1][..i] == s[..i];
      r := Place(r, s[i], key);
    }
    assert s[..|s|] == s;
  }

  lemma {:induction false} PlaceKeeps<T>(s: seq<T>, x: T, key: T -> int)
    ensures multiset(Place(s, x, key)) == multiset(s) + multiset{x}
    decreases |s|
  {
    if s != [] && key(s[|s| - 1]) > key(x) {
      PlaceKeeps(s[..|s| - 1], x, key);
      assert s == s[..|s| - 1] + [s[|s| - 1]];
    }
  }

  lemma {:induction false} SortedSnoc<T>(s: seq<T>, x: T, key: T -> int)
    requires Sorted(s, key) && forall e :: e in s ==> key(e) <= key(x)
    ensures Sorted(s + [x], key)
  {}

  lemma {:induction false} PlaceSorted<T>(s: seq<T>, x: T, key: T -> int)
    requires Sorted(s, key)
    ensures Sorted(Place(s, x, key), key)
    decreases |s|
  {
    if s == [] || key(s[|s| - 1]) <= key(x) {
      SortedSnoc(s, x, key);
    } else {
      var front, last := s[..|s| - 1], s[|s| - 1];
      PlaceSorted(front, x, key);
      PlaceKeeps(front, x, key);
      var placed := Place(front, x, key);
      forall e | e in placed ensures key(e) <= key(last) {
        assert e in multiset(placed);
        assert e in front || e == x;
      }
      SortedSnoc(placed, last, key);
    }
  }

  /** The sort loses and invents nothing, and puts keys in order. */
  lemma {:induction false} SortSorts<T>(s: seq<T>, key: T -> int)
    ensures Sorted(SortBy(s, key), key) && multiset(SortBy(s, key)) == multiset(s)
    decreases |s|
  {
    if s != [] {
      var front, last := s[..|s| - 1], s[|s| - 1];
      SortSorts(front, key);
      PlaceSorted(SortBy(front, key), last, key);
      PlaceKeeps(SortBy(front, key), last, key);
      assert s == front + [last];
    }
  }

  lemma {:induction false} SortedFront<T>(s: seq<T>, front: seq<T>, last: T, key: T -> int)
    requires Sorted(s, key) && s == front + [last]
    ensures Sorted(front, key) && (front == [] || key(front[|front| - 1]) <= key(last))
  {
    forall i, j | 0 <= i < j < |front| ensures key(front[i]) <= key(front[j]) {
      assert front[i] == s[i] && front[j] == s[j];
    }
    if front != [] {
      assert front[|front| - 1] == s[|front| - 1] && s[|front|] == last;
    }
  }

  /** Sorting what is already in order changes nothing. */
  lemma {:induction false} SortedStays<T>(s: seq<T>, key: T -> int)
    requires Sorted(s, key)
    ensures SortBy(s, key) == s
    decreases |s|
  {
    if s != [] {
      var front, last := s[..|s| - 1], s[|s| - 1];
      assert s == front + [last];
      SortedFront(s, front, last, key);
      SortedStays(front, key);
    }
  }

  ghost predicate DistinctKeys<T>(s: seq<T>, key: T -> int) {
    forall e, f :: e in s && f in s && key(e) == key(f) ==> e == f
  }

  lemma {:induction false} LastIsLargest<T>(a: seq<T>, b: seq<T>, key: T -> int)
    requires Sorted(a, key) && Sorted(b, key) && multiset(a) == multiset(b) && DistinctKeys(a, key) && a != []
    ensures b != [] && a[|a| - 1] == b[|b| - 1]
  {
    var x := a[|a| - 1];
    assert x in multiset(b);
    var y := b[|b| - 1];
    assert y in multiset(a);
  }

  lemma {:induction false} DropLast<T>(a: seq<T>, b: seq<T>)
    requires a != [] && b != [] && multiset(a) == multiset(b) && a[|a| - 1] == b[|b| - 1]
    ensures multiset(a[..|a| - 1]) == multiset(b[..|b| - 1])
  {
    assert a == a[..|a| - 1] + [a[|a| - 1]];
    assert b == b[..|b| - 1] + [b[|b| - 1]];
    assert multiset(a[..|a| - 1]) == multiset(a) - multiset{a[|a| - 1]};
    assert multiset(b[..|b| - 1]) == multiset(b) - multiset{b[|b| - 1]};
  }

  /** With distinct keys there is only one order. */
  lemma {:induction false} SameOrder<T>(a: seq<T>, b: seq<T>, key: T -> int)
    requires Sorted(a, key) && Sorted(b, key) && multiset(a) == multiset(b) && DistinctKeys(a, key)
    ensures a == b
    decreases |a|
  {
    if a == [] {
      assert |multiset(b)| == 0;
    } else {
      LastIsLargest(a, b, key);
      DropLast(a, b);
      SameOrder(a[..|a| - 1], b[..|b| - 1], key);
      assert a == a[..|a| - 1] + [a[|a| - 1]];
      assert b == b[..|b| - 1] + [b[|b| - 1]];
    }
  }
}
