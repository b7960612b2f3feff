/**
 The library sort that the repository calls on a copy of a list: `Array.prototype.sort` with a
 numeric comparator (stable) and `sort.Slice` in Go.
 */
module Sorting {

  function Insert<T>(x: T, s: seq<T>, key: T -> int): (r: seq<T>)
    ensures |r| == |s| + 1
  {
    if s == [] || key(x) <= key(s[0]) then [x] + s else [s[0]] + Insert(x, s[1..], key)
  }

  /** Sorted by key; elements of equal key keep their order. */
  function StableSort<T>(s: seq<T>, key: T -> int): (r: seq<T>)
    ensures |r| == |s|
  {
    if s == [] then [] else Insert(s[0], StableSort(s[1..], key), key)
  }

  ghost predicate SortedBy<T>(s: seq<T>, key: T -> int) {
    forall i, j :: 0 <= i < j < |s| ==> key(s[i]) <= key(s[j])
  }

  lemma {:induction false} InsertAdds<T>(x: T, s: seq<T>, key: T -> int)
    ensures multiset(Insert(x, s, key)) == multiset{x} + multiset(s)
    decreases |s|
  {
    if s != [] && key(x) > key(s[0]) {
      assert s == [s[0]] + s[1..];
      InsertAdds(x, s[1..], key);
    }
  }

  lemma {:induction false} InsertIsSorted<T>(x: T, s: seq<T>, key: T -> int)
    requires SortedBy(s, key)
    ensures SortedBy(Insert(x, s, key), key)
    ensures Insert(x, s, key)[0] == if s == [] || key(x) <= key(s[0]) then x else s[0]
    decreases |s|
  {
    if s != [] && key(x) > key(s[0]) {
      InsertIsSorted(x, s[1..], key);
      SortedCons(s[0], Insert(x, s[1..], key), key);
    } else if s != [] {
      SortedCons(x, s, key);
    }
  }

  lemma {:induction false} SortedCons<T>(x: T, s: seq<T>, key: T -> int)
    requires SortedBy(s, key)
    requires s != [] ==> key(x) <= key(s[0])
    ensures SortedBy([x] + s, key)
  {
  }

  lemma {:induction false} StableSortSorts<T>(s: seq<T>, key: T -> int)
    ensures SortedBy(StableSort(s, key), key)
    ensures multiset(StableSort(s, key)) == multiset(s)
    decreases |s|
  {
    if s != [] {
      assert s == [s[0]] + s[1..];
      StableSortSorts(s[1..], key);
      InsertIsSorted(s[0], StableSort(s[1..], key), key);
      InsertAdds(s[0], StableSort(s[1..], key), key);
    }
  }

  /** The elements of one key, in order. */
  function WithKey<T>(s: seq<T>, key: T -> int, k: int): seq<T> {
    if s == [] then []
    else (if key(s[0]) == k then [s[0]] else []) + WithKey(s[1..], key, k)
  }

  lemma {:induction false} InsertIsStable<T>(x: T, s: seq<T>, key: T -> int, k: int)
    ensures WithKey(Insert(x, s, key), key, k) == WithKey([x] + s, key, k)
    decreases |s|
  {
    assert ([x] + s)[1..] == s;
    if s != [] && key(x) > key(s[0]) {
      InsertIsStable(x, s[1..], key, k);
      assert ([s[0]] + Insert(x, s[1..], key))[1..] == Insert(x, s[1..], key);
      assert ([x] + s[1..])[1..] == s[1..];
    }
  }

  /** Elements of equal key keep their order. */
  lemma {:induction false} StableSortIsStable<T>(s: seq<T>, key: T -> int, k: int)
    ensures WithKey(StableSort(s, key), key, k) == WithKey(s, key, k)
    decreases |s|
  {
    if s != [] {
      var rest := StableSort(s[1..], key);
      StableSortIsStable(s[1..], key, k);
      InsertIsStable(s[0], rest, key, k);
      assert ([s[0]] + rest)[1..] == rest;
    }
  }
}
