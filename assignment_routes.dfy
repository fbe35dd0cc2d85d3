/** The assignment routes of the Flask backend
    (web-interface/backend/assignment_routes.py): saving an assignment under
    the next free index, listing the saved assignments, and deleting one. */
module AssignmentRoutes {
  import opened Wrappers
  import opened Strings
  import opened RedisStore
  import opened RequestModels
  import opened Sorting
  import opened SavedItems

  // ---------------------------------------------------------------------
  // save_assignment

  /** The index of an assignment key: the integer second part of a key with
      exactly two `:`-separated parts; None for every other key. */
  function AssignmentKeyIndex(key: string): (r: Option<int>)
    ensures r.Some? ==> exists a, d :: (':' !in a && ':' !in d && key == a + [':'] + d && ParseInt(d) == r)
    ensures ':' !in key ==> r.None?
  {
    var parts := Split(key, ':');
    if |parts| == 2 then
      JoinSplit(key, ':');
      assert parts[1..][0] == parts[1];
      assert Join(parts[1..], ':') == parts[1];
      assert key == parts[0] + [':'] + parts[1];
      ParseInt(parts[1])
    else
      SplitPlain(key, ':');
      None
  }

  /** The key save_assignment writes for index `n`. */
  function NewAssignmentKey(n: nat): (r: string)
    ensures StartsWith(r, AssignmentsPrefix) && |r| > |AssignmentsPrefix| && AllDigits(r[|AssignmentsPrefix|..])
  {
    StartsWithConcat(AssignmentsPrefix, NatToString(n));
    assert (AssignmentsPrefix + NatToString(n))[|AssignmentsPrefix|..] == NatToString(n);
    AssignmentsPrefix + NatToString(n)
  }

  /** The key written for index `n` has index `n` again. */
  lemma NewAssignmentKeyIndex(n: nat)
    ensures AssignmentKeyIndex(NewAssignmentKey(n)) == Some(n)
  {
    NatToStringNoChar(n, ':');
    var d := NatToString(n);
    SplitTwo("brasov-assignments", d, ':');
    assert "brasov-assignments" + [':'] + d == NewAssignmentKey(n);
    ParseIntOfNat(n);
  }

  /** The key for `highest + 1` is not among the keys the index was taken
      from, so saving never overwrites an assignment. */
  lemma NewAssignmentKeyFresh(keys: set<string>, highest: int)
    requires IsHighestIndex(keys, AssignmentKeyIndex, highest)
    ensures NewAssignmentKey(highest + 1) !in keys
  {
    NewAssignmentKeyIndex(highest + 1);
  }

  /** `key` is the key save_assignment picks in `data`: the one for one
      more than the highest index in use, which is not yet taken. */
  predicate NextAssignmentKey(data: map<string, Hash>, key: string, index: int) {
    IsHighestIndex(KeysWithPrefix(data, AssignmentsPrefix), AssignmentKeyIndex, index - 1) &&
    key == NewAssignmentKey(index) && key !in data
  }

  /** save_assignment. 400 for a missing or invalid body; otherwise one new
      hash under `brasov-assignments:{highest+1}`, and nothing else changes. */
  method SaveAssignment(store: Store, body: Option<JsonObject>, now: nat) returns (status: int, key: string, index: int)
    modifies store
    ensures status == 200 || status == 400
    ensures status == 400 <==> !ReadBody(body, SaveRequest).Accepted?
    ensures status == 400 ==> store.data == old(store.data)
    ensures status == 200 ==>
      var req := ReadBody(body, SaveRequest).value;
      NextAssignmentKey(old(store.data), key, index) &&
      store.data == old(store.data)[key := SavedHash(req.0, req.1, now)]
  {
    var req := ReadBody(body, SaveRequest);
    if !req.Accepted? {
      return 400, "", 0;
    }
    key, index := StoreNewAssignment(store, SavedHash(req.value.0, req.value.1, now));
    status := 200;
  }

  /** The success path of save_assignment: the next free index, then one
      HSET. */
  method StoreNewAssignment(store: Store, fields: Hash) returns (key: string, index: int)
    modifies store
    ensures NextAssignmentKey(old(store.data), key, index)
    ensures store.data == old(store.data)[key := fields]
  {
    var keys := store.Keys(AssignmentsPrefix);
    var highest := HighestIndex(keys, AssignmentKeyIndex);
    NewAssignmentKeyFresh(keys, highest);
    index := highest + 1;
    key := NewAssignmentKey(index);
    StartsWithConcat(AssignmentsPrefix, NatToString(index));
    assert key !in store.data;
    store.HSet(key, fields);
    assert map[] + fields == fields;
  }

  // ---------------------------------------------------------------------
  // get_assignments

  /** get_assignments as the code evidently intends it. OPTIONS answers
      without a list and without reading the store; GET lists every
      non-empty assignment hash with an integer timestamp, topic
      `Unnamed Assignment` when absent, once each, newest first. */
  method GetAssignments(store: Store, isOptions: bool) returns (assignments: Option<seq<SavedItem>>)
    ensures isOptions <==> assignments.None?
    ensures assignments.Some? ==>
      SortedBy(assignments.value, NewestFirst) &&
      multiset(assignments.value) ==
        multiset(ListedItems(store.data, KeysWithPrefix(store.data, AssignmentsPrefix), "Unnamed Assignment"))
  {
    if isOptions {
      return None;
    }
    var items := ListItems(store, AssignmentsPrefix, "Unnamed Assignment");
    assignments := Some(items);
  }

  // ---------------------------------------------------------------------
  // delete_assignment

  /** The key delete_assignment looks up: a key carrying the assignment
      prefix is kept, a bare key without `:` gets the prefix, and any other
      key is used unchanged. */
  function NormaliseAssignmentKey(key: string): (r: string)
    ensures ':' !in key ==> r == AssignmentsPrefix + key
    ensures ':' in key ==> r == key
  {
    if StartsWith(key, AssignmentsPrefix) then
      assert key[|AssignmentsPrefix| - 1] == ':';
      key
    else if ':' !in key then AssignmentsPrefix + key
    else key
  }

  /** The normalised key always contains `:`, so normalising it again
      changes nothing. */
  lemma NormaliseAssignmentKeyIdempotent(key: string)
    ensures ':' in NormaliseAssignmentKey(key)
    ensures NormaliseAssignmentKey(NormaliseAssignmentKey(key)) == NormaliseAssignmentKey(key)
  {
    var r := NormaliseAssignmentKey(key);
    if ':' !in key {
      assert r[|AssignmentsPrefix| - 1] == ':';
    }
  }

  /** delete_assignment: OPTIONS answers 200 without touching the store; a
      missing or invalid body is 400; an absent normalised key is 404 with
      no fallback; otherwise that key, and only it, is deleted. */
  method DeleteAssignment(store: Store, isOptions: bool, body: Option<JsonObject>) returns (status: int)
    modifies store
    ensures isOptions ==> status == 200 && store.data == old(store.data)
    ensures !isOptions && !ReadBody(body, KeyRequest).Accepted? ==> status == 400 && store.data == old(store.data)
    ensures !isOptions && ReadBody(body, KeyRequest).Accepted? ==>
      var k := NormaliseAssignmentKey(ReadBody(body, KeyRequest).value);
      if k in old(store.data) then status == 200 && store.data == old(store.data) - {k}
      else status == 404 && store.data == old(store.data)
  {
    if isOptions {
      return 200;
    }
    var req := ReadBody(body, KeyRequest);
    if !req.Accepted? {
      return 400;
    }
    var k := NormaliseAssignmentKey(req.value);
    if k !in store.data {
      return 404;
    }
    store.Delete(k);
    status := 200;
  }
}
