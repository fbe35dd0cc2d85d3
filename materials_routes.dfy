/** The material routes of the Flask backend
    (web-interface/backend/materials_routes.py), except sync-all, which has
    a module of its own: listing the course documents, naming one, deleting
    one, and turning vector-search matches into results. The AI name
    generator and the vector search are oracle parameters. */
module MaterialsRoutes {
  import opened Wrappers
  import opened Strings
  import opened RedisStore
  import opened RequestModels
  import opened SavedItems

  // ---------------------------------------------------------------------
  // get_materials

  /** One listed document. */
  datatype Material = Material(id: string, content: string, name: string, hasPdf: bool)

  /** The keys get_materials reads: the document keys that are not
      `:name` sub-keys. */
  function DocumentKeys(data: map<string, Hash>): (keys: set<string>)
    ensures keys <= data.Keys
    ensures forall k :: k in keys <==> k in data && StartsWith(k, DocPrefix) && !EndsWith(k, NameSuffix)
  {
    set k | k in KeysWithPrefix(data, DocPrefix) && !EndsWith(k, NameSuffix)
  }

  /** One listed document: an empty hash is skipped; content and name
      default to empty; `has_pdf` tells whether a `pdf_data` field exists. */
  function MaterialOf(key: string, h: Hash): (r: Option<Material>)
    ensures r.Some? <==> h != map[]
    ensures r.Some? ==> r.value.id == key && (r.value.hasPdf <==> "pdf_data" in h)
    ensures r.Some? && "name" !in h ==> r.value.name == ""
    ensures r.Some? && "content" !in h ==> r.value.content == ""
  {
    if h == map[] then None
    else Some(Material(key, FieldOr(h, "content", ""), FieldOr(h, "name", ""), "pdf_data" in h))
  }

  /** The documents listed for the keys in `keys`. */
  ghost function ListedMaterials(data: map<string, Hash>, keys: set<string>): set<Material>
    requires keys <= data.Keys
  {
    set k | k in keys && MaterialOf(k, data[k]).Some? :: MaterialOf(k, data[k]).value
  }

  /** Listing one more key adds at most its own document. */
  lemma ListedMaterialsAdd(data: map<string, Hash>, done: set<string>, k: string)
    requires done <= data.Keys && k in data && k !in done
    ensures MaterialOf(k, data[k]).None? ==> ListedMaterials(data, done + {k}) == ListedMaterials(data, done)
    ensures MaterialOf(k, data[k]).Some? ==>
      ListedMaterials(data, done + {k}) == ListedMaterials(data, done) + {MaterialOf(k, data[k]).value} &&
      MaterialOf(k, data[k]).value !in ListedMaterials(data, done)
  {
    forall x | x in ListedMaterials(data, done)
      ensures x.id != k
    {
      var j :| j in done && MaterialOf(j, data[j]).Some? && MaterialOf(j, data[j]).value == x;
    }
  }

  /** get_materials: every non-empty document hash whose key is not a
      `:name` sub-key, once each, in the order KEYS returns them (which
      Redis leaves unspecified). */
  method GetMaterials(store: Store) returns (documents: seq<Material>)
    ensures multiset(documents) == multiset(ListedMaterials(store.data, DocumentKeys(store.data)))
  {
    var allKeys := store.Keys(DocPrefix);
    var keys := set k | k in allKeys && !EndsWith(k, NameSuffix);
    assert keys == DocumentKeys(store.data);
    documents := ReadMaterials(store, keys);
  }

  /** The loop of get_materials over the document keys. */
  method ReadMaterials(store: Store, keys: set<string>) returns (documents: seq<Material>)
    requires keys <= store.data.Keys
    ensures multiset(documents) == multiset(ListedMaterials(store.data, keys))
  {
    documents := [];
    var todo := keys;
    ghost var done: set<string> := {};
    while todo != {}
      invariant todo <= keys && done == keys - todo
      invariant multiset(documents) == multiset(ListedMaterials(store.data, done))
      decreases |todo|
    {
      var k :| k in todo;
      ListedMaterialsAdd(store.data, done, k);
      var doc := MaterialOf(k, store.data[k]);
      if doc.Some? {
        MultisetOfFresh(ListedMaterials(store.data, done), doc.value);
        documents := documents + [doc.value];
      }
      todo := todo - {k};
      done := done + {k};
    }
    assert done == keys;
  }

  // ---------------------------------------------------------------------
  // sync_document_name

  /** `if not content_bytes`: an absent and an empty content field both
      count as no content. */
  function ContentOf(h: Hash): string {
    FieldOr(h, "content", "")
  }

  /** `if document_name`: the generator failed or produced an empty name. */
  predicate NameGenerated(name: Option<string>) {
    name.Some? && name.value != ""
  }

  /** sync_document_name: 400 for a missing or invalid body; 404 for an
      absent key or a document without content; 500 when no name could be
      generated; otherwise the generated name overwrites the `name` field,
      existing or not, and nothing else changes. */
  method SyncDocumentName(store: Store, body: Option<JsonObject>, generate: string -> Option<string>)
    returns (status: int, name: Option<string>)
    modifies store
    ensures status in {200, 400, 404, 500}
    ensures status != 200 <==> store.data == old(store.data) && name.None?
    ensures status == 400 <==> !ReadBody(body, KeyRequest).Accepted?
    ensures status != 400 ==>
      var key := ReadBody(body, KeyRequest).value;
      (status == 404 <==> key !in old(store.data) || ContentOf(old(store.data)[key]) == "") &&
      (status == 500 <==> key in old(store.data) && ContentOf(old(store.data)[key]) != "" &&
                          !NameGenerated(generate(ContentOf(old(store.data)[key])))) &&
      (status == 200 ==>
        name == generate(ContentOf(old(store.data)[key])) &&
        store.data == old(store.data)[key := old(store.data)[key]["name" := name.value]])
  {
    var req := ReadBody(body, KeyRequest);
    if !req.Accepted? {
      return 400, None;
    }
    var key := req.value;
    if key !in store.data {
      return 404, None;
    }
    var content := ContentOf(store.data[key]);
    if content == "" {
      return 404, None;
    }
    var generated := generate(content);
    if !NameGenerated(generated) {
      return 500, None;
    }
    store.HSet(key, map["name" := generated.value]);
    assert old(store.data)[key] + map["name" := generated.value] == old(store.data)[key]["name" := generated.value];
    return 200, generated;
  }

  // ---------------------------------------------------------------------
  // delete_material

  /** delete_material: 400 for a missing or invalid body; 404 with the store
      unchanged for an absent key; otherwise exactly that key is removed. */
  method DeleteMaterial(store: Store, body: Option<JsonObject>) returns (status: int)
    modifies store
    ensures !ReadBody(body, KeyRequest).Accepted? ==> status == 400 && store.data == old(store.data)
    ensures ReadBody(body, KeyRequest).Accepted? ==>
      var key := ReadBody(body, KeyRequest).value;
      if key in old(store.data) then status == 200 && store.data == old(store.data) - {key}
      else status == 404 && store.data == old(store.data)
  {
    var req := ReadBody(body, KeyRequest);
    if !req.Accepted? {
      return 400;
    }
    if req.value !in store.data {
      return 404;
    }
    store.Delete(req.value);
    status := 200;
  }

  // ---------------------------------------------------------------------
  // search_materials

  /** One vector-search match: the `key` of its metadata, if any, and its
      score, if any. */
  datatype Match = Match(key: Option<string>, score: Option<real>)

  /** One search result. */
  datatype Hit = Hit(text: string, title: string, timestamp: int, key: string, name: string, hasPdf: bool, score: real)

  /** `int(key.split(':')[-1]) if ':' in key else 0`; None is the
      `ValueError` of a last segment that is not an integer. */
  function KeyTimestamp(key: string): (r: Option<int>)
    ensures ':' !in key ==> r == Some(0)
    ensures ':' in key ==> r == ParseInt(LastSegment(key, ':'))
  {
    if ':' in key then ParseInt(LastSegment(key, ':')) else Some(0)
  }

  /** `h.get('title', h.get('name', ''))`. */
  function TitleOf(h: Hash): (r: string)
    ensures "title" in h ==> r == h["title"]
    ensures "title" !in h && "name" in h ==> r == h["name"]
    ensures "title" !in h && "name" !in h ==> r == ""
  {
    if "title" in h then h["title"] else FieldOr(h, "name", "")
  }

  /** The result for one match, as the code evidently intends it: a match
      without a metadata key, or whose key has no hash or no content field,
      is skipped, and so is one whose timestamp cannot be read (the
      `ValueError` branch). A document whose `pdf_data` holds a PDF gives
      its hit with `has_pdf`, as the binary check intends; the written
      read of the hash fails on those bytes (`SearchFailsAsWritten`). */
  function HitOf(data: map<string, Hash>, m: Match): (r: Option<Hit>)
    ensures r.Some? <==>
      m.key.Some? && m.key.value != "" && m.key.value in data && "content" in data[m.key.value] &&
      KeyTimestamp(m.key.value).Some?
    ensures r.Some? ==>
      var h := data[m.key.value];
      r.value.key == m.key.value && r.value.text == h["content"] && r.value.title == TitleOf(h) &&
      r.value.timestamp == KeyTimestamp(m.key.value).value &&
      (r.value.hasPdf <==> "pdf_data" in h) && r.value.score == m.score.GetOr(0.0)
  {
    match m.key
    case None => None
    case Some(key) =>
      if key == "" || key !in data || "content" !in data[key] then None
      else
        var h := data[key];
        match KeyTimestamp(key)
        case None => None
        case Some(ts) =>
          Some(Hit(h["content"], TitleOf(h), ts, key, FieldOr(h, "name", ""), "pdf_data" in h, m.score.GetOr(0.0)))
  }

  /** The results for `ms`, in match order. */
  function HitsOf(data: map<string, Hash>, ms: seq<Match>): (r: seq<Hit>)
    ensures |r| <= |ms|
  {
    if |ms| == 0 then []
    else
      var rest := HitsOf(data, ms[..|ms| - 1]);
      match HitOf(data, ms[|ms| - 1])
      case None => rest
      case Some(hit) => rest + [hit]
  }

  /** Every result comes from a match in the list, and a list of matches
      none of which is usable gives no result. */
  lemma {:induction false} HitsOfFrom(data: map<string, Hash>, ms: seq<Match>)
    ensures forall h :: h in HitsOf(data, ms) ==> exists i :: 0 <= i < |ms| && HitOf(data, ms[i]) == Some(h)
    ensures (forall i :: 0 <= i < |ms| ==> HitOf(data, ms[i]).None?) ==> HitsOf(data, ms) == []
  {
    if |ms| > 0 {
      var init := ms[..|ms| - 1];
      HitsOfFrom(data, init);
      forall h | h in HitsOf(data, ms)
        ensures exists i :: 0 <= i < |ms| && HitOf(data, ms[i]) == Some(h)
      {
        if h in HitsOf(data, init) {
          var i :| 0 <= i < |init| && HitOf(data, init[i]) == Some(h);
          assert ms[i] == init[i];
        } else {
          assert HitOf(data, ms[|ms| - 1]) == Some(h);
        }
      }
    }
  }

  /** Every usable match gives a result. */
  lemma {:induction false} HitsOfTo(data: map<string, Hash>, ms: seq<Match>, i: nat)
    requires i < |ms| && HitOf(data, ms[i]).Some?
    ensures HitOf(data, ms[i]).value in HitsOf(data, ms)
  {
    if i < |ms| - 1 {
      HitsOfTo(data, ms[..|ms| - 1], i);
    }
  }

  /** search_materials as the code evidently intends it. 400 for a missing
      or invalid body; otherwise the query and limit go to the vector
      search, and its matches become results in order; the store is only
      read. */
  method SearchMaterials(store: Store, body: Option<JsonObject>, search: (string, Option<int>) -> seq<Match>)
    returns (status: int, hits: seq<Hit>)
    ensures !ReadBody(body, SearchRequest).Accepted? ==> status == 400 && hits == []
    ensures ReadBody(body, SearchRequest).Accepted? ==>
      var req := ReadBody(body, SearchRequest).value;
      status == 200 && hits == HitsOf(store.data, search(req.0, req.1))
  {
    var req := ReadBody(body, SearchRequest);
    if !req.Accepted? {
      return 400, [];
    }
    var ms := search(req.value.0, req.value.1);
    hits := [];
    var i := 0;
    while i < |ms|
      invariant 0 <= i <= |ms|
      invariant hits == HitsOf(store.data, ms[..i])
    {
      assert ms[..i + 1][..i] == ms[..i];
      var hit := HitOf(store.data, ms[i]);
      if hit.Some? {
        hits := hits + [hit.value];
      }
      i := i + 1;
    }
    assert ms[..i] == ms;
    status := 200;
  }

  /** As written, the first handler of the per-match `try` names `redis`,
      which materials_routes.py never imports, so any error inside it
      becomes a `NameError` and the whole search fails. Two errors reach
      it: reading a hash whose `pdf_data` is not UTF-8 through the decoding
      connection (`UnicodeDecodeError`), and a key whose last segment is
      not an integer (`ValueError`). */
  predicate SearchFailsAsWritten(data: map<string, Hash>, ms: seq<Match>) {
    exists i :: 0 <= i < |ms| && ms[i].key.Some? && ms[i].key.value != "" &&
      ms[i].key.value in data &&
      (!TextReadable(data[ms[i].key.value]) ||
       ("content" in data[ms[i].key.value] && KeyTimestamp(ms[i].key.value).None?))
  }

  /** A usable match whose document holds a `pdf_data` that is not UTF-8
      fails the search as written, whereas the intended search returns its
      hit, flagged as having a PDF. */
  lemma UndecodablePdfFailsSearch(data: map<string, Hash>, ms: seq<Match>, i: nat)
    requires i < |ms| && HitOf(data, ms[i]).Some?
    requires BinaryField in data[ms[i].key.value] && !Utf8(data[ms[i].key.value][BinaryField])
    ensures SearchFailsAsWritten(data, ms)
    ensures HitOf(data, ms[i]).value in HitsOf(data, ms) && HitOf(data, ms[i]).value.hasPdf
  {
    HitsOfTo(data, ms, i);
  }

  /** A course document whose `pdf_data` is a PDF file fails the search as
      written, whereas the intended search returns it with `has_pdf`. */
  lemma PdfDocumentFailsSearch(pdf: string)
    ensures var k := DocPrefix + NatToString(1);
      var data := map[k := map["content" := "Limits", BinaryField := PdfHeader() + pdf]];
      var ms := [Match(Some(k), None)];
      SearchFailsAsWritten(data, ms) &&
      HitsOf(data, ms) == [Hit("Limits", "", 1, k, "", true, 0.0)]
  {
    var k := DocPrefix + NatToString(1);
    var data := map[k := map["content" := "Limits", BinaryField := PdfHeader() + pdf]];
    var ms := [Match(Some(k), None)];
    NatToStringNoChar(1, ':');
    LastSegmentAfter(DocPrefix, NatToString(1), ':');
    ParseIntOfNat(1);
    assert KeyTimestamp(k) == Some(1);
    PdfHeaderNotUtf8(pdf);
    UndecodablePdfFailsSearch(data, ms, 0);
    assert ms[..0] == [];
  }

  /** A match for `doc:brasov-cursuri:intro` fails the search as written,
      whereas the intended search only leaves it out. */
  lemma NamedKeyFailsSearch()
    ensures var k := DocPrefix + "intro";
      var data := map[k := map["content" := "Limits"]];
      var ms := [Match(Some(k), None)];
      SearchFailsAsWritten(data, ms) && HitsOf(data, ms) == []
  {
    var k := DocPrefix + "intro";
    var data := map[k := map["content" := "Limits"]];
    var ms := [Match(Some(k), None)];
    assert k[|k| - 6] == ':';
    assert LastSegment(k, ':') == "intro";
    assert Trim("intro") == "intro" by { TrimUnchanged("intro"); }
    assert !IsDigit('i');
    assert ParseInt("intro").None?;
    assert KeyTimestamp(k).None?;
    assert HitOf(data, ms[0]).None?;
    assert ms[..0] == [];
  }
}
