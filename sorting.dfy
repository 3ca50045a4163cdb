/** Python's `sorted(..., key=...)`: a stable sort of items by a numeric
    key. A descending sort (`reverse=True`) is a sort by the negated key,
    which Python also keeps stable. */
module Sorting {

  /** An item together with the key it is sorted by. */
  datatype Keyed<T> = Keyed(item: T, key: real)

  predicate SortedByKey<T>(s: seq<Keyed<T>>) {
    forall i, j :: 0 <= i < j < |s| ==> s[i].key <= s[j].key
  }

  /** The items with key `k`, in their order in `s`. A sort is stable when
      it keeps every such sequence unchanged. */
  function WithKey<T>(s: seq<Keyed<T>>, k: real): seq<Keyed<T>> {
    if s == [] then []
    else (if s[0].key == k then [s[0]] else []) + WithKey(s[1..], k)
  }

  /** Places `x` before the first item whose key is not smaller. */
  function Insert<T>(x: Keyed<T>, s: seq<Keyed<T>>): seq<Keyed<T>> {
    if s == [] || x.key <= s[0].key then [x] + s
    else [s[0]] + Insert(x, s[1..])
  }

  /** The stable sort: each item is inserted in front of the sorted rest,
      ahead of the items with an equal key. */
  function SortByKey<T>(s: seq<Keyed<T>>): seq<Keyed<T>> {
    if s == [] then [] else Insert(s[0], SortByKey(s[1..]))
  }

  lemma {:induction false} InsertPermutes<T>(x: Keyed<T>, s: seq<Keyed<T>>)
    ensures multiset(Insert(x, s)) == multiset{x} + multiset(s)
  {
    if s != [] && x.key > s[0].key {
      InsertPermutes(x, s[1..]);
      assert s == [s[0]] + s[1..];
    }
  }

  lemma {:induction false} InsertSorted<T>(x: Keyed<T>, s: seq<Keyed<T>>)
    requires SortedByKey(s)
    ensures SortedByKey(Insert(x, s))
  {
    if s != [] && x.key > s[0].key {
      InsertSorted(x, s[1..]);
      InsertPermutes(x, s[1..]);
      var r := Insert(x, s[1..]);
      forall y | y in r
        ensures s[0].key <= y.key
      {
        assert y in multiset(r);
        if y != x {
          var j :| 0 <= j < |s[1..]| && s[1..][j] == y;
          assert s[j + 1] == y;
        }
      }
      assert forall j :: 0 < j < |[s[0]] + r| ==> ([s[0]] + r)[j] in r;
    }
  }

  lemma {:induction false} InsertWithKey<T>(x: Keyed<T>, s: seq<Keyed<T>>, k: real)
    ensures WithKey(Insert(x, s), k) == (if x.key == k then [x] else []) + WithKey(s, k)
  {
    if s == [] || x.key <= s[0].key {
      var r := [x] + s;
      assert r[0] == x && r[1..] == s;
    } else {
      var t := Insert(x, s[1..]);
      InsertWithKey(x, s[1..], k);
      var r := [s[0]] + t;
      assert r[0] == s[0] && r[1..] == t;
      var head := if s[0].key == k then [s[0]] else [];
      assert WithKey(r, k) == head + WithKey(t, k);
      assert WithKey(s, k) == head + WithKey(s[1..], k);
      if s[0].key == k {
        assert x.key != k;
      }
    }
  }

  /** The sort orders by key, is a permutation, and is stable. */
  lemma {:induction false} SortByKeyShape<T>(s: seq<Keyed<T>>)
    ensures SortedByKey(SortByKey(s))
    ensures multiset(SortByKey(s)) == multiset(s)
    ensures forall k :: WithKey(SortByKey(s), k) == WithKey(s, k)
  {
    if s != [] {
      SortByKeyShape(s[1..]);
      InsertSorted(s[0], SortByKey(s[1..]));
      InsertPermutes(s[0], SortByKey(s[1..]));
      assert s == [s[0]] + s[1..];
      forall k
        ensures WithKey(SortByKey(s), k) == WithKey(s, k)
      {
        InsertWithKey(s[0], SortByKey(s[1..]), k);
      }
    }
  }

  lemma SortByKeyLength<T>(s: seq<Keyed<T>>)
    ensures |SortByKey(s)| == |s|
  {
    SortByKeyShape(s);
    assert |multiset(SortByKey(s))| == |multiset(s)|;
  }

  lemma SortByKeyMembers<T>(s: seq<Keyed<T>>)
    ensures forall y :: y in SortByKey(s) <==> y in s
  {
    SortByKeyShape(s);
    forall y
      ensures y in SortByKey(s) <==> y in s
    {
      assert y in SortByKey(s) <==> y in multiset(SortByKey(s));
      assert y in s <==> y in multiset(s);
    }
  }

  /** The items of a keyed sequence, in order. */
  function Items<T>(s: seq<Keyed<T>>): (r: seq<T>)
    ensures |r| == |s|
    ensures forall i :: 0 <= i < |s| ==> r[i] == s[i].item
  {
    if s == [] then [] else [s[0].item] + Items(s[1..])
  }
}
