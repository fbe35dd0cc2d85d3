/** What save_quiz and save_assignment, and get_quizzes and get_assignments,
    have in common (web-interface/backend/quiz_routes.py and
    web-interface/backend/assignment_routes.py): the running maximum over
    the index of every existing key, the hash a save writes, and the
    listing of the saved hashes newest first. */
module SavedItems {
  import opened Wrappers
  import opened Strings
  import opened RedisStore
  import opened Sorting

  // ---------------------------------------------------------------------
  // Index allocation

  /** `max(0, every parsable index)`: what the index loop computes. */
  predicate IsHighestIndex(keys: set<string>, index: (string) -> Option<int>, highest: int) {
    highest >= 0 &&
    (forall k :: k in keys && index(k).Some? ==> index(k).value <= highest) &&
    (highest == 0 || exists k :: k in keys && index(k) == Some(highest))
  }

  /** One more key keeps the running maximum. */
  lemma HighestIndexStep(done: set<string>, index: (string) -> Option<int>, highest: int, k: string, next: int)
    requires IsHighestIndex(done, index, highest)
    requires next == if index(k).Some? && index(k).value > highest then index(k).value else highest
    ensures IsHighestIndex(done + {k}, index, next)
  {
    if next != highest {
      assert k in done + {k} && index(k) == Some(next);
    } else if highest != 0 {
      var w :| w in done && index(w) == Some(highest);
      assert w in done + {k};
    }
  }

  /** The index loop of save_quiz and of save_assignment over the keys
      KEYS returned, visited in whatever order Redis returns them; keys
      that `index` cannot read are skipped. */
  method HighestIndex(keys: set<string>, index: (string) -> Option<int>) returns (highest: int)
    ensures IsHighestIndex(keys, index, highest)
  {
    highest := 0;
    var todo := keys;
    while todo != {}
      invariant todo <= keys
      invariant IsHighestIndex(keys - todo, index, highest)
      decreases |todo|
    {
      var k :| k in todo;
      var i := index(k);
      var next := if i.Some? && i.value > highest then i.value else highest;
      HighestIndexStep(keys - todo, index, highest, k, next);
      assert keys - (todo - {k}) == (keys - todo) + {k};
      highest := next;
      todo := todo - {k};
    }
  }

  /** The hash both saves write; `now` is `int(time.time())`. */
  function SavedHash(xml: string, topic: string, now: nat): Hash {
    map["xml" := xml, "topic" := topic, "timestamp" := NatToString(now)]
  }

  // ---------------------------------------------------------------------
  // Listing

  /** One listed quiz or assignment. */
  datatype SavedItem = SavedItem(key: string, topic: string, timestamp: int, xml: string)

  /** `h.get(field, default)`. */
  function FieldOr(h: Hash, field: string, default: string): string {
    if field in h then h[field] else default
  }

  /** One listed item: an empty hash is skipped, and so is one whose
      timestamp is not an integer (the `ValueError` branch); a missing
      topic is `defaultTopic`, a missing timestamp 0, a missing xml empty. */
  function ItemOf(key: string, h: Hash, defaultTopic: string): (r: Option<SavedItem>)
    ensures r.Some? ==> r.value.key == key && h != map[]
    ensures h != map[] && ParseInt(FieldOr(h, "timestamp", "0")).Some? ==> r.Some?
    ensures r.Some? && "topic" !in h ==> r.value.topic == defaultTopic
    ensures r.Some? && "timestamp" !in h ==> r.value.timestamp == 0
    ensures r.Some? && "xml" !in h ==> r.value.xml == ""
  {
    if h == map[] then None
    else match ParseInt(FieldOr(h, "timestamp", "0"))
      case None => None
      case Some(ts) => Some(SavedItem(key, FieldOr(h, "topic", defaultTopic), ts, FieldOr(h, "xml", "")))
  }

  /** The items listed for the keys in `keys`. */
  ghost function ListedItems(data: map<string, Hash>, keys: set<string>, defaultTopic: string): set<SavedItem>
    requires keys <= data.Keys
  {
    set k | k in keys && ItemOf(k, data[k], defaultTopic).Some? :: ItemOf(k, data[k], defaultTopic).value
  }

  /** The sort key of `sort(key=lambda x: x['timestamp'], reverse=True)`. */
  function NewestFirst(q: SavedItem): int {
    -q.timestamp
  }

  /** Listing one more key adds at most its own item. */
  lemma ListedItemsAdd(data: map<string, Hash>, done: set<string>, k: string, defaultTopic: string)
    requires done <= data.Keys && k in data && k !in done
    ensures ItemOf(k, data[k], defaultTopic).None? ==>
      ListedItems(data, done + {k}, defaultTopic) == ListedItems(data, done, defaultTopic)
    ensures ItemOf(k, data[k], defaultTopic).Some? ==>
      ListedItems(data, done + {k}, defaultTopic) ==
        ListedItems(data, done, defaultTopic) + {ItemOf(k, data[k], defaultTopic).value} &&
      ItemOf(k, data[k], defaultTopic).value !in ListedItems(data, done, defaultTopic)
  {
    forall x | x in ListedItems(data, done, defaultTopic)
      ensures x.key != k
    {
      var j :| j in done && ItemOf(j, data[j], defaultTopic).Some? && ItemOf(j, data[j], defaultTopic).value == x;
    }
  }

  /** Listing the keys with `prefix` as the code evidently intends it: every
      non-empty hash with an integer timestamp, once each, newest first. */
  method ListItems(store: Store, prefix: string, defaultTopic: string) returns (items: seq<SavedItem>)
    ensures SortedBy(items, NewestFirst)
    ensures multiset(items) == multiset(ListedItems(store.data, KeysWithPrefix(store.data, prefix), defaultTopic))
  {
    var keys := store.Keys(prefix);
    var acc: seq<SavedItem> := [];
    var todo := keys;
    ghost var done: set<string> := {};
    while todo != {}
      invariant todo <= keys && done == keys - todo
      invariant multiset(acc) == multiset(ListedItems(store.data, done, defaultTopic))
      decreases |todo|
    {
      var k :| k in todo;
      ListedItemsAdd(store.data, done, k, defaultTopic);
      var item := ItemOf(k, store.data[k], defaultTopic);
      if item.Some? {
        MultisetOfFresh(ListedItems(store.data, done, defaultTopic), item.value);
        acc := acc + [item.value];
      }
      todo := todo - {k};
      done := done + {k};
    }
    assert done == keys;
    items := SortBy(acc, NewestFirst);
  }

  lemma MultisetOfFresh<T>(a: set<T>, x: T)
    requires x !in a
    ensures multiset(a + {x}) == multiset(a) + multiset{x}
  {
  }

  /** As written, the first handler of the per-key `try` names `redis`,
      which neither route module imports: a `ValueError` from a non-integer
      timestamp becomes a `NameError` that fails the whole request. */
  predicate ListingFailsAsWritten(data: map<string, Hash>, prefix: string) {
    exists k :: k in data && StartsWith(k, prefix) && data[k] != map[] &&
      ParseInt(FieldOr(data[k], "timestamp", "0")).None?
  }

  /** One hash with timestamp `soon` under `prefix` fails the listing as
      written, whereas the intended listing only leaves that item out. */
  lemma BadTimestampFailsListing(prefix: string, defaultTopic: string)
    ensures var data := map[prefix + "1" := map["timestamp" := "soon"]];
      ListingFailsAsWritten(data, prefix) &&
      ListedItems(data, data.Keys, defaultTopic) == {}
  {
    var k := prefix + "1";
    var data := map[k := map["timestamp" := "soon"]];
    assert k in data && "timestamp" in data[k];
    StartsWithConcat(prefix, "1");
    assert Trim("soon") == "soon" by { TrimUnchanged("soon"); }
    assert !IsDigit('s');
    assert ParseInt("soon").None?;
    assert ItemOf(k, data[k], defaultTopic).None?;
  }
}
