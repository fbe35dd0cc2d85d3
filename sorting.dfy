/** Python's `list.sort(key=...)` on the lists the routes build, written as
    an insertion sort over a sequence. Ties keep their input order, as in
    Python's stable sort, but the contracts only promise order and
    permutation. */
module Sorting {

  predicate SortedBy<T>(s: seq<T>, key: T -> int) {
    forall i, j :: 0 <= i < j < |s| ==> key(s[i]) <= key(s[j])
  }

  /** `x` placed after every element whose key is not greater. */
  function Insert<T>(x: T, s: seq<T>, key: T -> int): (r: seq<T>)
    requires SortedBy(s, key)
    ensures SortedBy(r, key)
    ensures multiset(r) == multiset(s) + multiset{x}
    ensures |r| == |s| + 1
  {
    if |s| == 0 then [x]
    else if key(x) < key(s[0]) then [x] + s
    else
      var t := Insert(x, s[1..], key);
      assert s == [s[0]] + s[1..];
      FirstIsLeast(s[0], x, s[1..], t, key);
      SortedCons(s[0], t, key);
      assert multiset([s[0]] + t) == multiset{s[0]} + multiset(t);
      [s[0]] + t
  }

  /** A sorted sequence stays sorted behind an element no greater than any
      of it. */
  lemma SortedCons<T>(y: T, t: seq<T>, key: T -> int)
    requires SortedBy(t, key)
    requires forall k :: 0 <= k < |t| ==> key(y) <= key(t[k])
    ensures SortedBy([y] + t, key)
  {
    var r := [y] + t;
    forall i, j | 0 <= i < j < |r|
      ensures key(r[i]) <= key(r[j])
    {
      if i > 0 {
        assert r[i] == t[i - 1] && r[j] == t[j - 1];
      } else {
        assert r[j] == t[j - 1];
      }
    }
  }

  /** An element no greater than `x` and than every element of the sorted
      tail `s` is no greater than anything in a permutation of `s + [x]`. */
  lemma FirstIsLeast<T>(y: T, x: T, s: seq<T>, t: seq<T>, key: T -> int)
    requires key(y) <= key(x)
    requires forall k :: 0 <= k < |s| ==> key(y) <= key(s[k])
    requires multiset(t) == multiset(s) + multiset{x}
    ensures forall k :: 0 <= k < |t| ==> key(y) <= key(t[k])
  {
    forall k | 0 <= k < |t|
      ensures key(y) <= key(t[k])
    {
      assert t[k] in multiset(t);
      if t[k] != x {
        assert t[k] in multiset(s);
        var m :| 0 <= m < |s| && s[m] == t[k];
      }
    }
  }

  /** `items.sort(key=key)`: a sorted permutation of `items`. */
  method SortBy<T>(items: seq<T>, key: T -> int) returns (r: seq<T>)
    ensures SortedBy(r, key)
    ensures multiset(r) == multiset(items)
  {
    r := [];
    var i := 0;
    while i < |items|
      invariant 0 <= i <= |items|
      invariant SortedBy(r, key)
      invariant multiset(r) == multiset(items[..i])
    {
      assert items[..i + 1] == items[..i] + [items[i]];
      r := Insert(items[i], r, key);
      i := i + 1;
    }
    assert items[..i] == items;
  }
}
