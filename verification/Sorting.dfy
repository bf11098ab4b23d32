/** The stable ascending sort that the engine applies to fills, events and levels
    before it replays them. `key` plays the part of the sort key. */
module Sorting {

  ghost predicate SortedBy<T>(s: seq<T>, key: T -> int) {
    forall i, j | 0 <= i < j < |s| :: key(s[i]) <= key(s[j])
  }

  /** Puts `x` behind every element whose key is not larger. */
  function Insert<T>(x: T, s: seq<T>, key: T -> int): seq<T> {
    if s == [] || key(x) < key(s[0]) then [x] + s
    else [s[0]] + Insert(x, s[1..], key)
  }

  function StableSort<T>(s: seq<T>, key: T -> int): seq<T> {
    if s == [] then [] else Insert(s[|s| - 1], StableSort(s[..|s| - 1], key), key)
  }

  lemma {:induction false} InsertPermutes<T>(x: T, s: seq<T>, key: T -> int)
    ensures multiset(Insert(x, s, key)) == multiset(s) + multiset{x}
  {
    if s != [] && key(s[0]) <= key(x) {
      assert s == [s[0]] + s[1..];
      InsertPermutes(x, s[1..], key);
    }
  }

  lemma {:induction false} StableSortPermutes<T(!new)>(s: seq<T>, key: T -> int)
    ensures multiset(StableSort(s, key)) == multiset(s)
    ensures forall x :: x in StableSort(s, key) <==> x in s
  {
    if s != [] {
      assert s == s[..|s| - 1] + [s[|s| - 1]];
      StableSortPermutes(s[..|s| - 1], key);
      InsertPermutes(s[|s| - 1], StableSort(s[..|s| - 1], key), key);
    }
    forall x ensures x in StableSort(s, key) <==> x in s {
      assert x in StableSort(s, key) <==> x in multiset(StableSort(s, key));
      assert x in s <==> x in multiset(s);
    }
  }

  lemma {:induction false} InsertKeepsOrder<T>(x: T, s: seq<T>, key: T -> int)
    requires SortedBy(s, key)
    ensures SortedBy(Insert(x, s, key), key)
  {
    if s != [] && key(s[0]) <= key(x) {
      InsertKeepsOrder(x, s[1..], key);
      var r := Insert(x, s[1..], key);
      InsertPermutes(x, s[1..], key);
      forall j | 0 <= j < |r| ensures key(s[0]) <= key(r[j]) {
        assert r[j] in multiset(r);
        assert r[j] in multiset(s[1..]) + multiset{x};
        assert r[j] in s[1..] || r[j] == x;
      }
    }
  }

  lemma {:induction false} StableSortSorts<T>(s: seq<T>, key: T -> int)
    ensures SortedBy(StableSort(s, key), key)
  {
    if s != [] {
      StableSortSorts(s[..|s| - 1], key);
      InsertKeepsOrder(s[|s| - 1], StableSort(s[..|s| - 1], key), key);
    }
  }

  lemma {:induction false} InsertLast<T>(x: T, s: seq<T>, key: T -> int)
    requires forall i | 0 <= i < |s| :: key(s[i]) <= key(x)
    ensures Insert(x, s, key) == s + [x]
  {
    if s != [] {
      InsertLast(x, s[1..], key);
      assert s == [s[0]] + s[1..];
    }
  }

  /** An element that is not earlier than anything present goes to the end. */
  lemma {:induction false} SortAppendsLatest<T(!new)>(s: seq<T>, x: T, key: T -> int)
    requires forall y | y in s :: key(y) <= key(x)
    ensures StableSort(s + [x], key) == StableSort(s, key) + [x]
  {
    var r := StableSort(s, key);
    assert (s + [x])[..|s|] == s;
    StableSortPermutes(s, key);
    forall i | 0 <= i < |r| ensures key(r[i]) <= key(x) {
      assert r[i] in r;
    }
    InsertLast(x, r, key);
  }

  /** The elements carrying key `k`, in order. */
  ghost function WithKey<T>(s: seq<T>, key: T -> int, k: int): (r: seq<T>) {
    if s == [] then []
    else (if key(s[0]) == k then [s[0]] else []) + WithKey(s[1..], key, k)
  }

  lemma {:induction false} WithKeyHead<T>(x: T, s: seq<T>, key: T -> int, k: int)
    ensures WithKey([x] + s, key, k) == (if key(x) == k then [x] else []) + WithKey(s, key, k)
  {
    assert ([x] + s)[1..] == s;
  }

  lemma {:induction false} WithKeyAppend<T>(a: seq<T>, b: seq<T>, key: T -> int, k: int)
    ensures WithKey(a + b, key, k) == WithKey(a, key, k) + WithKey(b, key, k)
  {
    if a == [] {
      assert a + b == b;
    } else {
      WithKeyAppend(a[1..], b, key, k);
      WithKeyHead(a[0], a[1..] + b, key, k);
      WithKeyHead(a[0], a[1..], key, k);
      assert a + b == [a[0]] + (a[1..] + b) && a == [a[0]] + a[1..];
    }
  }

  lemma {:induction false} InsertIsStable<T>(x: T, s: seq<T>, key: T -> int, k: int)
    requires SortedBy(s, key)
    ensures WithKey(Insert(x, s, key), key, k) == WithKey(s + [x], key, k)
  {
    WithKeyAppend(s, [x], key, k);
    if s == [] {
    } else if key(x) < key(s[0]) {
      assert ([x] + s)[1..] == s;
      if key(x) == k { NoneBelow(s, key, k); }
    } else {
      InsertIsStable(x, s[1..], key, k);
      WithKeyAppend(s[1..], [x], key, k);
      assert ([s[0]] + Insert(x, s[1..], key))[1..] == Insert(x, s[1..], key);
    }
  }

  lemma {:induction false} NoneBelow<T>(s: seq<T>, key: T -> int, k: int)
    requires forall i | 0 <= i < |s| :: k < key(s[i])
    ensures WithKey(s, key, k) == []
  {
    if s != [] { NoneBelow(s[1..], key, k); }
  }

  /** Elements with equal keys keep their input order. */
  lemma {:induction false} StableSortIsStable<T>(s: seq<T>, key: T -> int, k: int)
    ensures WithKey(StableSort(s, key), key, k) == WithKey(s, key, k)
  {
    if s != [] {
      var p, x := s[..|s| - 1], s[|s| - 1];
      assert s == p + [x];
      StableSortIsStable(p, key, k);
      StableSortSorts(p, key);
      InsertIsStable(x, StableSort(p, key), key, k);
      WithKeyAppend(StableSort(p, key), [x], key, k);
      WithKeyAppend(p, [x], key, k);
    }
  }
}
