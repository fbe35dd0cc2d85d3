/** Lists of records with a string key, as the dashboards keep them:
    mapped from a response, and filtered by key after a delete. */
module KeyedLists {

  /** `items.map(read)`. */
  function MapAll<S, T>(items: seq<S>, read: S -> T): (r: seq<T>)
    ensures |r| == |items|
    ensures forall i :: 0 <= i < |items| ==> r[i] == read(items[i])
  {
    seq(|items|, i requires 0 <= i < |items| => read(items[i]))
  }

  /** `items.filter(item => item.key !== key)`. */
  function WithoutKey<T>(items: seq<T>, keyOf: T -> string, key: string): (r: seq<T>)
    ensures |r| <= |items|
  {
    if |items| == 0 then []
    else
      var rest := WithoutKey(items[..|items| - 1], keyOf, key);
      if keyOf(items[|items| - 1]) == key then rest else rest + [items[|items| - 1]]
  }

  /** Exactly the items with another key remain. */
  lemma {:induction false} WithoutKeyMembers<T>(items: seq<T>, keyOf: T -> string, key: string, x: T)
    ensures x in WithoutKey(items, keyOf, key) <==> x in items && keyOf(x) != key
  {
    if |items| > 0 {
      var init := items[..|items| - 1];
      WithoutKeyMembers(init, keyOf, key, x);
      assert items == init + [items[|items| - 1]];
    }
  }

  /** The kept items stay in their order: filtering a list is filtering
      each part of it. */
  lemma {:induction false} WithoutKeyConcat<T>(a: seq<T>, b: seq<T>, keyOf: T -> string, key: string)
    ensures WithoutKey(a + b, keyOf, key) == WithoutKey(a, keyOf, key) + WithoutKey(b, keyOf, key)
  {
    if |b| == 0 {
      assert a + b == a;
    } else {
      var init := b[..|b| - 1];
      WithoutKeyConcat(a, init, keyOf, key);
      assert (a + b)[..|a + b| - 1] == a + init;
    }
  }

  /** A key that is not there leaves the list as it was. */
  lemma {:induction false} WithoutAbsentKey<T>(items: seq<T>, keyOf: T -> string, key: string)
    requires forall i :: 0 <= i < |items| ==> keyOf(items[i]) != key
    ensures WithoutKey(items, keyOf, key) == items
  {
    if |items| > 0 {
      var init := items[..|items| - 1];
      WithoutAbsentKey(init, keyOf, key);
      assert init + [items[|items| - 1]] == items;
    }
  }

  /** Deleting twice is deleting once. */
  lemma {:induction false} WithoutKeyIdempotent<T>(items: seq<T>, keyOf: T -> string, key: string)
    ensures WithoutKey(WithoutKey(items, keyOf, key), keyOf, key) == WithoutKey(items, keyOf, key)
  {
    if |items| > 0 {
      var init := items[..|items| - 1];
      WithoutKeyIdempotent(init, keyOf, key);
      var rest := WithoutKey(init, keyOf, key);
      if keyOf(items[|items| - 1]) != key {
        assert (rest + [items[|items| - 1]])[..|rest|] == rest;
      }
    }
  }
}
