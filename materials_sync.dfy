/** sync_all_documents of web-interface/backend/materials_routes.py: one
    pass over every document key that deletes the short documents and
    names (or, with `force_rename`, renames) the others, keeping counters.
    The AI name generator is an oracle parameter. */
module MaterialsSync {
  import opened Wrappers
  import opened Strings
  import opened RedisStore
  import opened RequestModels
  import opened SavedItems
  import opened MaterialsRoutes

  /** What the pass does with one document. */
  datatype SyncOutcome =
    | NoContent            // no or empty content: an error, left untouched
    | DeletedShort         // `#` or shorter than 5 characters: deleted
    | AlreadyNamed         // has a name and no forced rename: skipped
    | Named(name: string)  // first name stored
    | Renamed(name: string) // existing name replaced under force_rename
    | NameFailed           // the generator gave no name: an error

  /** `text == '#' or len(text) < 5`. */
  predicate TooShort(text: string) {
    text == "#" || |text| < 5
  }

  /** The decision the loop body takes for a document hash `h`. */
  function SyncOutcomeOf(h: Hash, force: bool, generate: string -> Option<string>): SyncOutcome {
    var text := ContentOf(h);
    if text == "" then NoContent
    else if TooShort(text) then DeletedShort
    else if !force && "name" in h then AlreadyNamed
    else
      var name := generate(text);
      if !NameGenerated(name) then NameFailed
      else if "name" in h && force then Renamed(name.value)
      else Named(name.value)
  }

  /** The naming decision: a document with enough content is sent to the
      generator when `force_rename` is set or it has no name yet, and
      counts as renamed only when it had a name and the rename was forced;
      a document without content or with too little is never named. */
  lemma SyncDecision(h: Hash, force: bool, generate: string -> Option<string>)
    ensures var o := SyncOutcomeOf(h, force, generate);
      var text := ContentOf(h);
      (o.NoContent? <==> text == "") &&
      (o.DeletedShort? <==> text != "" && TooShort(text)) &&
      (o.AlreadyNamed? <==> text != "" && !TooShort(text) && !force && "name" in h) &&
      (o.Renamed? ==> force && "name" in h) &&
      (o.Named? ==> !("name" in h && force)) &&
      ((o.Named? || o.Renamed?) <==>
        text != "" && !TooShort(text) && (force || "name" !in h) && NameGenerated(generate(text))) &&
      ((o.Named? || o.Renamed?) ==> o.name == generate(text).value)
  {
  }

  /** The hash after the outcome, for an outcome that keeps the document:
      only a new name changes it. */
  function Applied(h: Hash, o: SyncOutcome): Hash {
    match o
    case Named(n) => h["name" := n]
    case Renamed(n) => h["name" := n]
    case _ => h
  }

  /** The outcome for every document of `data`. */
  ghost function OutcomesOf(data: map<string, Hash>, force: bool, generate: string -> Option<string>): (os: map<string, SyncOutcome>)
    ensures os.Keys == data.Keys
    ensures forall k :: k in data ==> os[k] == SyncOutcomeOf(data[k], force, generate)
  {
    map k | k in data :: SyncOutcomeOf(data[k], force, generate)
  }

  /** The store after the pass has handled the keys in `done`, whose
      outcomes `os` gives: short documents gone, new names stored, every
      other key as it was. */
  ghost function SyncedStore(data: map<string, Hash>, os: map<string, SyncOutcome>, done: set<string>): map<string, Hash>
    requires done <= data.Keys <= os.Keys
  {
    map k | k in data && !(k in done && os[k].DeletedShort?) ::
      if k in done then Applied(data[k], os[k]) else data[k]
  }

  /** What the pass does to the store: a handled document disappears
      exactly when it had some content but too little; a kept document
      changes at most in its `name` field, and only when it was named or
      renamed; documents not handled and keys outside the store are
      untouched. */
  lemma SyncEffect(data: map<string, Hash>, done: set<string>, force: bool, generate: string -> Option<string>, k: string)
    requires done <= data.Keys && k in data
    ensures var os := OutcomesOf(data, force, generate);
      var after := SyncedStore(data, os, done);
      var text := ContentOf(data[k]);
      after.Keys <= data.Keys &&
      (k !in after <==> k in done && text != "" && TooShort(text)) &&
      (k in after ==> after[k] - {"name"} == data[k] - {"name"}) &&
      (k in after && after[k] != data[k] ==> k in done && (os[k].Named? || os[k].Renamed?))
  {
    var os := OutcomesOf(data, force, generate);
    SyncDecision(data[k], force, generate);
    var after := SyncedStore(data, os, done);
    if k in after && k in done && (os[k].Named? || os[k].Renamed?) {
      assert after[k] == data[k]["name" := os[k].name];
      assert after[k] - {"name"} == data[k] - {"name"};
    }
  }

  /** The class of an outcome: `errors` counts the two error classes
      together. */
  datatype Counter = DeletedCount | SkippedCount | NamedCount | RenamedCount | NoContentCount | NameFailedCount

  function CounterOf(o: SyncOutcome): Counter {
    match o
    case NoContent => NoContentCount
    case DeletedShort => DeletedCount
    case AlreadyNamed => SkippedCount
    case Named(_) => NamedCount
    case Renamed(_) => RenamedCount
    case NameFailed => NameFailedCount
  }

  /** The number of keys in `keys` whose outcome increments counter `c`. */
  ghost function CountOf(os: map<string, SyncOutcome>, keys: set<string>, c: Counter): nat {
    |set k | k in os && k in keys && CounterOf(os[k]) == c|
  }

  /** One more key adds one to the counter of its outcome and nothing to
      the others. */
  lemma CountStep(os: map<string, SyncOutcome>, done: set<string>, k: string, c: Counter)
    requires k in os && k !in done
    ensures CountOf(os, done + {k}, c) == CountOf(os, done, c) + (if CounterOf(os[k]) == c then 1 else 0)
  {
    var before := set j | j in os && j in done && CounterOf(os[j]) == c;
    var after := set j | j in os && j in done + {k} && CounterOf(os[j]) == c;
    if CounterOf(os[k]) == c {
      assert after == before + {k};
    } else {
      assert after == before;
    }
  }

  /** The `results` counters and the deletion log. The log keeps the key and
      the first 30 characters of each deleted document. */
  datatype SyncResults = SyncResults(
    scanned: nat, processed: nat, named: nat, renamed: nat, skipped: nat,
    deletedShort: nat, errors: nat, deletedLog: seq<(string, string)>)

  /** `text[:30]`. */
  function Preview(text: string): (r: string)
    ensures |r| == if |text| < 30 then |text| else 30
    ensures StartsWith(text, r)
  {
    if |text| < 30 then text else text[..30]
  }

  /** The results after one more document with outcome `o`. */
  function Tally(r: SyncResults, key: string, text: string, o: SyncOutcome): SyncResults {
    match o
    case NoContent => r.(errors := r.errors + 1)
    case DeletedShort => r.(deletedShort := r.deletedShort + 1, deletedLog := r.deletedLog + [(key, Preview(text))])
    case AlreadyNamed => r.(skipped := r.skipped + 1)
    case Named(_) => r.(processed := r.processed + 1, named := r.named + 1)
    case Renamed(_) => r.(processed := r.processed + 1, renamed := r.renamed + 1)
    case NameFailed => r.(processed := r.processed + 1, errors := r.errors + 1)
  }

  /** The counters agree with the outcomes of the keys in `done`. */
  ghost predicate Counted(r: SyncResults, os: map<string, SyncOutcome>, done: set<string>) {
    r.deletedShort == CountOf(os, done, DeletedCount) &&
    r.skipped == CountOf(os, done, SkippedCount) &&
    r.named == CountOf(os, done, NamedCount) &&
    r.renamed == CountOf(os, done, RenamedCount) &&
    r.errors == CountOf(os, done, NoContentCount) + CountOf(os, done, NameFailedCount) &&
    r.processed == r.named + r.renamed + CountOf(os, done, NameFailedCount) &&
    r.deletedShort + r.skipped + r.named + r.renamed + r.errors == |done| &&
    |r.deletedLog| == r.deletedShort
  }

  /** The store after handling one more key. */
  lemma SyncedStoreStep(data: map<string, Hash>, os: map<string, SyncOutcome>, done: set<string>, k: string)
    requires done <= data.Keys <= os.Keys && k in data && k !in done
    ensures var s := SyncedStore(data, os, done);
      k in s && s[k] == data[k] &&
      SyncedStore(data, os, done + {k}) ==
        if os[k].DeletedShort? then s - {k} else s[k := Applied(data[k], os[k])]
  {
  }

  /** The loop body of sync_all_documents for one key, as the code
      evidently intends it: read the content, delete a short document, or
      decide whether to name it and store the generated name. */
  method SyncOne(store: Store, key: string, force: bool, generate: string -> Option<string>) returns (o: SyncOutcome)
    requires key in store.data
    modifies store
    ensures o == SyncOutcomeOf(old(store.data[key]), force, generate)
    ensures o.DeletedShort? ==> store.data == old(store.data) - {key}
    ensures !o.DeletedShort? ==> store.data == old(store.data)[key := Applied(old(store.data[key]), o)]
  {
    var h := store.data[key];
    var text := ContentOf(h);
    if text == "" {
      return NoContent;
    }
    if TooShort(text) {
      store.Delete(key);
      return DeletedShort;
    }
    var nameExists := "name" in h;
    if !force && nameExists {
      return AlreadyNamed;
    }
    var name := generate(text);
    if !NameGenerated(name) {
      return NameFailed;
    }
    store.HSet(key, map["name" := name.value]);
    assert h + map["name" := name.value] == h["name" := name.value];
    if nameExists && force {
      o := Renamed(name.value);
    } else {
      o := Named(name.value);
    }
  }

  /** sync_all_documents as the code evidently intends it. A body that
      fails validation gives None and changes nothing; otherwise every
      document key is handled once, and the results count each key under
      exactly one of deleted, skipped, named, renamed and errors. */
  method SyncAllDocuments(store: Store, body: Option<JsonObject>, generate: string -> Option<string>)
    returns (results: Option<SyncResults>)
    modifies store
    ensures SyncAllRequest(body.GetOr(map[])).None? ==> results.None? && store.data == old(store.data)
    ensures SyncAllRequest(body.GetOr(map[])).Some? ==>
      var force := SyncAllRequest(body.GetOr(map[])).value;
      var keys := KeysWithPrefix(old(store.data), DocPrefix);
      var os := OutcomesOf(old(store.data), force, generate);
      results.Some? && results.value.scanned == |keys| &&
      Counted(results.value, os, keys) &&
      store.data == SyncedStore(old(store.data), os, keys)
  {
    var req := SyncAllRequest(body.GetOr(map[]));
    if req.None? {
      return None;
    }
    var force := req.value;
    ghost var data := store.data;
    var keys := store.KeyList(DocPrefix);
    var r := SyncPass(store, keys, force, generate);
    ghost var os := OutcomesOf(data, force, generate);
    ReplaySynced(data, os, keys);
    CountedOfSeq(r, os, keys);
    assert SetOf(keys) == KeysWithPrefix(data, DocPrefix);
    results := Some(r);
  }

  /** The elements of `s`. */
  ghost function SetOf(s: seq<string>): set<string> {
    set k | k in s
  }

  /** The number of keys in the list `ks` whose outcome increments `c`. */
  ghost function CountSeq(os: map<string, SyncOutcome>, ks: seq<string>, c: Counter): nat {
    if |ks| == 0 then 0
    else
      var k := ks[|ks| - 1];
      CountSeq(os, ks[..|ks| - 1], c) + (if k in os && CounterOf(os[k]) == c then 1 else 0)
  }

  /** Counted, for the keys handled so far in list order. */
  ghost predicate CountedSeq(r: SyncResults, os: map<string, SyncOutcome>, ks: seq<string>) {
    r.deletedShort == CountSeq(os, ks, DeletedCount) &&
    r.skipped == CountSeq(os, ks, SkippedCount) &&
    r.named == CountSeq(os, ks, NamedCount) &&
    r.renamed == CountSeq(os, ks, RenamedCount) &&
    r.errors == CountSeq(os, ks, NoContentCount) + CountSeq(os, ks, NameFailedCount) &&
    r.processed == r.named + r.renamed + CountSeq(os, ks, NameFailedCount) &&
    r.deletedShort + r.skipped + r.named + r.renamed + r.errors == |ks| &&
    |r.deletedLog| == r.deletedShort
  }

  /** The store after the keys of the list `ks` were handled in order. */
  ghost function Replay(data: map<string, Hash>, os: map<string, SyncOutcome>, ks: seq<string>): map<string, Hash>
    requires data.Keys <= os.Keys
    requires forall k :: k in ks ==> k in data
  {
    if |ks| == 0 then data
    else
      var k := ks[|ks| - 1];
      var s := Replay(data, os, ks[..|ks| - 1]);
      if os[k].DeletedShort? then s - {k} else s[k := Applied(data[k], os[k])]
  }

  /** A key not yet handled still holds its original hash. */
  lemma {:induction false} ReplayOutside(data: map<string, Hash>, os: map<string, SyncOutcome>, ks: seq<string>, k: string)
    requires data.Keys <= os.Keys
    requires forall j :: j in ks ==> j in data
    requires k in data && k !in ks
    ensures k in Replay(data, os, ks) && Replay(data, os, ks)[k] == data[k]
  {
    if |ks| > 0 {
      ReplayOutside(data, os, ks[..|ks| - 1], k);
    }
  }

  /** Handling the keys in list order gives the store SyncedStore describes,
      whatever the order. */
  lemma {:induction false} ReplaySynced(data: map<string, Hash>, os: map<string, SyncOutcome>, ks: seq<string>)
    requires data.Keys <= os.Keys && Distinct(ks)
    requires forall k :: k in ks ==> k in data
    ensures Replay(data, os, ks) == SyncedStore(data, os, SetOf(ks))
  {
    if |ks| == 0 {
      assert SetOf(ks) == {};
      SyncStart(data, os, 0);
    } else {
      var init := ks[..|ks| - 1];
      var k := ks[|ks| - 1];
      ReplaySynced(data, os, init);
      assert SetOf(ks) == SetOf(init) + {k};
      SyncedStoreStep(data, os, SetOf(init), k);
    }
  }

  lemma NoneCounted(os: map<string, SyncOutcome>, keys: set<string>, c: Counter)
    requires keys == {}
    ensures CountOf(os, keys, c) == 0
  {
    var counted := set k | k in os && k in keys && CounterOf(os[k]) == c;
    assert counted == {};
  }

  /** Counting along a list of distinct keys counts the set of its keys. */
  lemma {:induction false} CountSeqSet(os: map<string, SyncOutcome>, ks: seq<string>, c: Counter)
    requires Distinct(ks)
    requires forall k :: k in ks ==> k in os
    ensures CountSeq(os, ks, c) == CountOf(os, SetOf(ks), c)
    ensures |SetOf(ks)| == |ks|
  {
    if |ks| == 0 {
      assert SetOf(ks) == {};
      NoneCounted(os, SetOf(ks), c);
    } else {
      var init := ks[..|ks| - 1];
      var k := ks[|ks| - 1];
      CountSeqSet(os, init, c);
      assert SetOf(ks) == SetOf(init) + {k};
      CountStep(os, SetOf(init), k, c);
    }
  }

  /** The counters kept along the list are the counters of its key set. */
  lemma CountedOfSeq(r: SyncResults, os: map<string, SyncOutcome>, ks: seq<string>)
    requires Distinct(ks)
    requires forall k :: k in ks ==> k in os
    requires CountedSeq(r, os, ks)
    ensures Counted(r, os, SetOf(ks))
  {
    CountSeqSet(os, ks, DeletedCount);
    CountSeqSet(os, ks, SkippedCount);
    CountSeqSet(os, ks, NamedCount);
    CountSeqSet(os, ks, RenamedCount);
    CountSeqSet(os, ks, NoContentCount);
    CountSeqSet(os, ks, NameFailedCount);
  }

  /** Before the loop the store is as it was. */
  lemma SyncStart(data: map<string, Hash>, os: map<string, SyncOutcome>, n: nat)
    requires data.Keys <= os.Keys
    ensures SyncedStore(data, os, {}) == data
  {
  }

  /** One pass of the loop: the store and the results move on by the
      `i`-th key. */
  method SyncKey(store: Store, ghost data: map<string, Hash>, ghost os: map<string, SyncOutcome>,
                 keys: seq<string>, i: nat, force: bool, generate: string -> Option<string>, r: SyncResults)
    returns (next: SyncResults)
    requires os == OutcomesOf(data, force, generate)
    requires forall j :: j in keys ==> j in data
    requires Distinct(keys) && i < |keys|
    requires store.data == Replay(data, os, keys[..i])
    requires CountedSeq(r, os, keys[..i])
    modifies store
    ensures store.data == Replay(data, os, keys[..i + 1])
    ensures CountedSeq(next, os, keys[..i + 1]) && next.scanned == r.scanned
  {
    var text, o := ApplyKey(store, data, os, keys, i, force, generate);
    next := Tally(r, keys[i], text, o);
    TallySeqPrefix(r, os, keys, i, text, next);
  }

  /** The store side of one pass: SyncOne on the `i`-th key, which still
      holds its original hash. */
  method ApplyKey(store: Store, ghost data: map<string, Hash>, ghost os: map<string, SyncOutcome>,
                  keys: seq<string>, i: nat, force: bool, generate: string -> Option<string>)
    returns (text: string, o: SyncOutcome)
    requires os == OutcomesOf(data, force, generate)
    requires forall j :: j in keys ==> j in data
    requires Distinct(keys) && i < |keys|
    requires store.data == Replay(data, os, keys[..i])
    modifies store
    ensures store.data == Replay(data, os, keys[..i + 1])
    ensures keys[i] in os && o == os[keys[i]]
  {
    var ks, k := keys[..i], keys[i];
    assert keys[..i + 1] == ks + [k];
    ReplayOutside(data, os, ks, k);
    text := ContentOf(store.data[k]);
    o := SyncOne(store, k, force, generate);
    assert (ks + [k])[..|ks|] == ks;
  }

  /** Tallying one more key keeps the counters in agreement with the
      outcomes: exactly one counter goes up. */
  lemma TallySeqStep(r: SyncResults, os: map<string, SyncOutcome>, ks: seq<string>, k: string, text: string, next: SyncResults)
    requires k in os
    requires CountedSeq(r, os, ks)
    requires next == Tally(r, k, text, os[k])
    ensures CountedSeq(next, os, ks + [k])
  {
    assert (ks + [k])[..|ks|] == ks;
  }

  /** TallySeqStep, for the next key of a list. */
  lemma TallySeqPrefix(r: SyncResults, os: map<string, SyncOutcome>, keys: seq<string>, i: nat, text: string, next: SyncResults)
    requires i < |keys| && keys[i] in os
    requires CountedSeq(r, os, keys[..i])
    requires next == Tally(r, keys[i], text, os[keys[i]])
    ensures CountedSeq(next, os, keys[..i + 1])
  {
    TallySeqStep(r, os, keys[..i], keys[i], text, next);
    assert keys[..i + 1] == keys[..i] + [keys[i]];
  }

  /** The loop of sync_all_documents over the key list. */
  method SyncPass(store: Store, keys: seq<string>, force: bool, generate: string -> Option<string>)
    returns (r: SyncResults)
    requires forall k :: k in keys ==> k in store.data
    requires Distinct(keys)
    modifies store
    ensures r.scanned == |keys|
    ensures CountedSeq(r, OutcomesOf(old(store.data), force, generate), keys)
    ensures store.data == Replay(old(store.data), OutcomesOf(old(store.data), force, generate), keys)
  {
    ghost var data := store.data;
    ghost var os := OutcomesOf(data, force, generate);
    r := SyncResults(|keys|, 0, 0, 0, 0, 0, 0, []);
    var i := 0;
    while i < |keys|
      invariant 0 <= i <= |keys|
      invariant r.scanned == |keys|
      invariant CountedSeq(r, os, keys[..i])
      invariant store.data == Replay(data, os, keys[..i])
    {
      r := SyncKey(store, data, os, keys, i, force, generate, r);
      i := i + 1;
    }
    assert keys[..i] == keys;
  }
}
