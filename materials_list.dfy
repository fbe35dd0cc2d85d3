/** The materials list (web-interface/frontned/src/components/MaterialsList.tsx):
    the documents read from the backend, the one selected, how it is named
    on screen, and what the delete, rename and refresh buttons do to the
    list. The backend's answers are parameters; a request that is retried
    reads its answer for attempt `i` from a function of `i`. */
module MaterialsList {
  import opened Wrappers
  import opened Strings
  import opened KeyedLists

  // ---------------------------------------------------------------------
  // Documents

  /** One document of the listing response; absent fields are `None`. */
  datatype Doc = Doc(content: Option<string>, name: Option<string>, id: Option<string>, hasPdf: Option<bool>)

  datatype Material = Material(text: string, title: string, timestamp: int, name: string, key: string, hasPdf: bool)

  function MaterialKey(m: Material): string { m.key }

  /** The mapping of fetchMaterials: text, name and key from the response
      (`''` when absent), no title, timestamp 0, and no PDF unless said. */
  function MaterialOf(d: Doc): (m: Material)
    ensures m.title == "" && m.timestamp == 0
    ensures d.content.Some? ==> m.text == d.content.value
    ensures d.content.None? ==> m.text == ""
    ensures d.name.Some? ==> m.name == d.name.value
    ensures d.name.None? ==> m.name == ""
    ensures d.id.Some? ==> m.key == d.id.value
    ensures d.id.None? ==> m.key == ""
    ensures m.hasPdf <==> d.hasPdf == Some(true)
  {
    Material(d.content.GetOr(""), "", 0, d.name.GetOr(""), d.id.GetOr(""), d.hasPdf.GetOr(false))
  }

  /** getDisplayName: a name of its own, else a label from the last `:`
      segment of the key, else `Unnamed Document`. */
  function DisplayName(m: Material): (r: string)
    ensures r != ""
    ensures m.name != "" && m.name != m.key ==> r == m.name
    ensures m.key == "" ==> r == OrDefault(m.name, "Unnamed Document")
  {
    if m.name != "" && m.name != m.key then m.name
    else if m.key != "" then
      var segment := LastSegment(m.key, ':');
      if segment == "0" then "Initial Document" else "Document #" + OrDefault(segment, "unknown")
    else "Unnamed Document"
  }

  /** A document without a name of its own, under `prefix:segment`, is
      labelled by its segment: `0` is the initial document. */
  lemma DisplayNameOfKey(m: Material, prefix: string, segment: string)
    requires |prefix| > 0 && prefix[|prefix| - 1] == ':' && ':' !in segment
    requires m.key == prefix + segment && (m.name == "" || m.name == m.key)
    ensures DisplayName(m) == if segment == "0" then "Initial Document"
                              else if segment == "" then "Document #unknown"
                              else "Document #" + segment
  {
    LastSegmentAfter(prefix, segment, ':');
  }

  // ---------------------------------------------------------------------
  // Navigation

  datatype Direction = Next | Prev

  /** Where the list is: the selected position, if any, and the page. */
  datatype Place = Place(active: Option<nat>, page: nat)

  /** handlePageChange: a page inside `1..totalPages` is taken and clears
      the selection; any other is ignored. */
  function PageTurn(newPage: int, totalPages: nat, here: Place): (r: Place)
    ensures 1 <= newPage <= totalPages ==> r == Place(None, newPage)
    ensures !(1 <= newPage <= totalPages) ==> r == here
  {
    if 1 <= newPage <= totalPages then Place(None, newPage as nat) else here
  }

  /** navigateDocuments on a list of `count` documents: nothing on an
      empty list; the first document when none is selected; otherwise one
      step, or at either end a page change when there is such a page. */
  function Navigated(dir: Direction, count: nat, totalPages: nat, here: Place): (r: Place)
    ensures count == 0 ==> r == here
    ensures count > 0 && here.active.None? ==> r == Place(Some(0), here.page)
    ensures r.page != here.page ==> r.active.None? && r.page == if dir == Next then here.page + 1 else here.page - 1
  {
    if count == 0 then here
    else if here.active.None? then here.(active := Some(0))
    else
      var i := here.active.value;
      match dir
      case Next => if i == count - 1 then (if here.page < totalPages then PageTurn(here.page + 1, totalPages, here) else here)
                   else here.(active := Some(i + 1))
      case Prev => if i == 0 then (if here.page > 1 then PageTurn(here.page - 1, totalPages, here) else here)
                   else here.(active := Some(i - 1))
  }

  /** The selection, when there is one, is a position of the list. */
  predicate InList(count: nat, active: Option<nat>) {
    active.None? || active.value < count
  }

  /** Navigation keeps a selection inside the list and the page inside
      `1..totalPages`; inside a page it moves by one position. */
  lemma NavigateInList(dir: Direction, count: nat, totalPages: nat, here: Place)
    requires InList(count, here.active) && 1 <= here.page <= totalPages
    ensures var there := Navigated(dir, count, totalPages, here);
      InList(count, there.active) && 1 <= there.page <= totalPages &&
      (count > 0 ==> there.active.Some? || there.page != here.page) &&
      (there.page == here.page && here.active.Some? && there.active.Some? ==>
        there.active.value + 1 == here.active.value || there.active.value == here.active.value + 1 ||
        there.active == here.active)
  {
  }

  /** With a single page, as every listing sets it, navigation never
      changes the page and never drops the selection. */
  lemma SinglePageNavigation(dir: Direction, count: nat, here: Place)
    requires here.page == 1
    ensures Navigated(dir, count, 1, here).page == 1
    ensures here.active.Some? ==> Navigated(dir, count, 1, here).active.Some?
  {
  }

  /** A step forward is undone by a step back, and the other way round. */
  lemma NavigateInverse(count: nat, totalPages: nat, i: nat, page: nat)
    ensures i + 1 < count ==>
      Navigated(Prev, count, totalPages, Navigated(Next, count, totalPages, Place(Some(i), page))) == Place(Some(i), page)
    ensures 0 < i < count ==>
      Navigated(Next, count, totalPages, Navigated(Prev, count, totalPages, Place(Some(i), page))) == Place(Some(i), page)
  {
  }

  // ---------------------------------------------------------------------
  // The selection after a delete

  /** handleDeleteMaterial's adjustment, as written, on the list from
      before the delete: a deleted selection is cleared; any other is
      moved to `len - 2` when it was at or past `len - 1`, else kept. The
      second component is the document handed to the parent. */
  function SelectionAsWritten(before: seq<Material>, active: Option<nat>, key: string): (r: (Option<nat>, Option<Material>))
    ensures r.0.Some? && active.Some? ==> r.0.value <= active.value
    ensures r.1.Some? ==> r.0.Some? && r.0.value < |before| && r.1.value == before[r.0.value]
  {
    if active.Some? && active.value < |before| && before[active.value].key == key then (None, None)
    else if active.Some? && |before| > 0 then
      var n := if active.value >= |before| - 1 then |before| - 2 else active.value;
      if n >= 0 then (Some(n as nat), Some(before[n])) else (active, None)
    else (active, None)
  }

  /** Deleting another document before the selected last one hands the
      parent the deleted document, while the list highlights the next. */
  lemma DeletedDocumentShownAsWritten(a: Material, b: Material, c: Material)
    requires a.key == "a" && b.key == "b" && c.key == "c"
    ensures var (active, shown) := SelectionAsWritten([a, b, c], Some(2), "b");
      active == Some(1) && shown == Some(b) && WithoutKey([a, b, c], MaterialKey, "b") == [a, c]
  {
    assert [a, b, c][..2] == [a, b];
    assert [a, b][..1] == [a];
    assert [a][..0] == [];
    assert WithoutKey([a], MaterialKey, "b") == [a];
    assert WithoutKey([a, b], MaterialKey, "b") == [a];
  }

  /** The selection after a delete, kept on the same document: cleared when
      it is deleted, otherwise moved past the deleted documents before it. */
  function SelectionAfterDelete(before: seq<Material>, active: Option<nat>, key: string): (r: Option<nat>)
    ensures active.None? ==> r.None?
  {
    if active.None? || active.value >= |before| || before[active.value].key == key then None
    else Some(|WithoutKey(before[..active.value], MaterialKey, key)|)
  }

  /** The corrected selection points, in the new list, at the document that
      was selected. */
  lemma SelectionFollowsDocument(before: seq<Material>, i: nat, key: string)
    requires i < |before| && before[i].key != key
    ensures var r := SelectionAfterDelete(before, Some(i), key);
      r.Some? && r.value < |WithoutKey(before, MaterialKey, key)| &&
      WithoutKey(before, MaterialKey, key)[r.value] == before[i]
  {
    var head, x, tail := before[..i], before[i], before[i + 1..];
    assert before == head + ([x] + tail);
    WithoutKeyConcat(head, [x] + tail, MaterialKey, key);
    WithoutKeyConcat([x], tail, MaterialKey, key);
    assert [x][..0] == [];
  }

  // ---------------------------------------------------------------------
  // Retried requests

  /** The retry loop of syncDocumentName and handleSyncAll: up to three
      attempts, stopping at the first that succeeds. `ok(i)` tells whether
      attempt `i` succeeds; `failures` counts the ones that did not. */
  method Retry(ok: nat -> bool) returns (success: bool, failures: nat)
    ensures success ==> failures <= 2 && ok(failures)
    ensures !success ==> failures == 3
    ensures forall i :: 0 <= i < failures ==> !ok(i)
    ensures success <==> ok(0) || ok(1) || ok(2)
    ensures success ==> failures == if ok(0) then 0 else if ok(1) then 1 else 2
  {
    var maxRetries := 2;
    failures := 0;
    success := false;
    while !success && failures <= maxRetries
      invariant failures <= maxRetries + 1
      invariant success ==> failures <= maxRetries && ok(failures)
      invariant forall i :: 0 <= i < failures ==> !ok(i)
      decreases maxRetries + 1 - failures, if success then 0 else 1
    {
      if ok(failures) {
        success := true;
      } else {
        failures := failures + 1;
      }
    }
  }

  /** The answer that settles a retried request: the first successful one
      of the three attempts, or else the last failure. */
  function Decided<T>(reply: nat -> T, ok: T -> bool): (r: T)
    ensures ok(r) <==> ok(reply(0)) || ok(reply(1)) || ok(reply(2))
  {
    if ok(reply(0)) then reply(0) else if ok(reply(1)) then reply(1) else reply(2)
  }

  /** The answer to attempt `i` of a name request: a failure with its
      message, or a name (possibly empty). */
  datatype NameReply = NameFailed(message: string) | NameGiven(name: string)

  /** The answer to attempt `i` of a sync-all request. */
  datatype SyncAllReply = SyncFailed(message: string) | SyncDone(named: nat, errors: nat)

  /** The answer to a listing or a delete request: success, or the
      message of the failure (`Server returned an invalid response` when
      the backend did not report success). */
  datatype Reply<T> = Succeeded(value: T) | Failed(message: string)

  /** The list with `key`'s documents renamed. */
  function Renamed(materials: seq<Material>, key: string, name: string): (r: seq<Material>)
    ensures |r| == |materials|
    ensures forall i :: 0 <= i < |r| ==> r[i] == if materials[i].key == key then materials[i].(name := name) else materials[i]
  {
    MapAll(materials, (m: Material) => if m.key == key then m.(name := name) else m)
  }

  /** A renamed document is shown under its new name unless the name is
      its key. */
  lemma RenamedShowsName(materials: seq<Material>, key: string, name: string, i: nat)
    requires i < |materials| && materials[i].key == key && name != "" && name != key
    ensures DisplayName(Renamed(materials, key, name)[i]) == name
  {
  }

  /** What the sync-results panel holds: `null` hides it; the initial
      `{}` is truthy, so the panel shows with blank counts before any sync;
      after a sync it shows the counts. */
  datatype SyncPanel = Hidden | Blank | Counts(named: nat, errors: nat)

  /** `!isStudentView && syncResults`: only the teacher's view shows the
      panel, and it does whenever the panel state is not `null`. */
  predicate PanelShown(isStudentView: bool, p: SyncPanel) {
    !isStudentView && !p.Hidden?
  }

  // The messages the list shows.
  const LoadFailed := "Failed to load documents: "
  const DeleteFailed := "Failed to delete document: "
  const NoNameGiven := "Failed to generate name: The AI name generator may be having issues."
  const SyncNameFailed := "Failed to sync document name: "
  const NamingWarning := "Some documents could not be named. The AI name generator may be having issues."
  const SyncAllFailed := "Failed to sync documents: "
  const UnknownError := "Unknown error"

  class MaterialsView {
    var materials: seq<Material>
    var active: Option<nat>
    var page: nat
    var totalPages: nat
    var error: Option<string>
    var syncResults: SyncPanel

    /** Pages are numbered from 1 and the page shown exists. */
    predicate Valid()
      reads this
    {
      1 <= page <= totalPages
    }

    /** The initial state: no documents, page 1 of 1, and the blank
        results panel that the teacher's view shows before any sync. */
    constructor()
      ensures Valid()
      ensures materials == [] && active == None && page == 1 && totalPages == 1
      ensures error == None && syncResults == Blank
      ensures PanelShown(false, syncResults) && !PanelShown(true, syncResults)
    {
      materials := [];
      active := None;
      page := 1;
      totalPages := 1;
      error := None;
      syncResults := Blank;
    }

    /** The auto-select effect after the list changed: the first document
        of a non-empty list when none is selected, no selection on an empty
        one. */
    method AutoSelect()
      modifies this
      ensures materials == old(materials) && page == old(page) && totalPages == old(totalPages)
      ensures error == old(error) && syncResults == old(syncResults)
      ensures |materials| > 0 && old(active).None? ==> active == Some(0)
      ensures |materials| == 0 ==> active == None
      ensures |materials| > 0 && old(active).Some? ==> active == old(active)
    {
      if |materials| > 0 && active.None? {
        active := Some(0);
      } else if |materials| == 0 {
        active := None;
      }
    }

    /** fetchMaterials, followed by the auto-select effect: a listing
        replaces the documents and resets the pages to one. */
    method Load(reply: Reply<seq<Doc>>)
      requires Valid()
      modifies this
      ensures Valid() && syncResults == old(syncResults)
      ensures reply.Succeeded? ==> materials == MapAll(reply.value, MaterialOf) && page == 1 && totalPages == 1 && error == None
      ensures reply.Failed? ==>
        materials == old(materials) && page == old(page) && totalPages == old(totalPages) &&
        error == Some(LoadFailed + OrDefault(reply.message, UnknownError))
      ensures |materials| == 0 ==> active == None
      ensures |materials| > 0 ==> active == if old(active).None? then Some(0) else old(active)
    {
      error := None;
      match reply {
        case Succeeded(docs) =>
          materials := MapAll(docs, MaterialOf);
          totalPages := 1;
          page := 1;
        case Failed(message) =>
          error := Some(LoadFailed + OrDefault(message, UnknownError));
      }
      AutoSelect();
    }

    /** handlePageChange. */
    method PageChange(newPage: int)
      requires Valid()
      modifies this
      ensures Valid()
      ensures materials == old(materials) && totalPages == old(totalPages)
      ensures error == old(error) && syncResults == old(syncResults)
      ensures Place(active, page) == PageTurn(newPage, totalPages, Place(old(active), old(page)))
    {
      if 1 <= newPage <= totalPages {
        page := newPage as nat;
        active := None;
      }
    }

    /** navigateDocuments, without the half-second timers that select a
        document once another page has loaded. */
    method Navigate(dir: Direction)
      requires Valid()
      modifies this
      ensures Valid()
      ensures materials == old(materials) && totalPages == old(totalPages)
      ensures error == old(error) && syncResults == old(syncResults)
      ensures Place(active, page) == Navigated(dir, |materials|, totalPages, Place(old(active), old(page)))
    {
      if |materials| == 0 {
        return;
      }
      if active.None? {
        active := Some(0);
        return;
      }
      var i := active.value;
      if dir == Next {
        if i == |materials| - 1 {
          if page < totalPages {
            PageChange(page + 1);
          }
          return;
        }
        active := Some(i + 1);
      } else {
        if i == 0 {
          if page > 1 {
            PageChange(page - 1);
          }
          return;
        }
        active := Some(i - 1);
      }
    }

    /** handleDeleteMaterial as evidently intended, followed by the
        auto-select effect: a successful delete removes every document with
        the key and keeps the selection on the document it was on. The
        handler as written moves the selection over the list from before
        the delete; that is `SelectionAsWritten`. */
    method DeleteMaterial(key: string, reply: Reply<()>)
      requires Valid()
      modifies this
      ensures Valid()
      ensures page == old(page) && totalPages == old(totalPages) && syncResults == old(syncResults)
      ensures reply.Succeeded? ==>
        materials == WithoutKey(old(materials), MaterialKey, key) && error == None &&
        var kept := SelectionAfterDelete(old(materials), old(active), key);
        (kept.Some? ==> active == kept) &&
        (kept.None? ==> active == if |materials| > 0 then Some(0) else None)
      ensures reply.Failed? ==>
        materials == old(materials) && error == Some(DeleteFailed + OrDefault(reply.message, UnknownError)) &&
        (|materials| > 0 && old(active).Some? ==> active == old(active))
    {
      error := None;
      match reply {
        case Succeeded(_) =>
          var before := materials;
          var kept := SelectionAfterDelete(before, active, key);
          materials := WithoutKey(before, MaterialKey, key);
          if kept.Some? {
            SelectionFollowsDocument(before, active.value, key);
          }
          active := kept;
        case Failed(message) =>
          error := Some(DeleteFailed + OrDefault(message, UnknownError));
      }
      AutoSelect();
    }

    /** syncDocumentName: up to three attempts; a non-empty name renames
        the documents with the key and nothing else. */
    method SyncName(key: string, reply: nat -> NameReply)
      requires Valid()
      modifies this
      ensures Valid()
      ensures active == old(active) && page == old(page) && totalPages == old(totalPages) && syncResults == old(syncResults)
      ensures var d := Decided(reply, (r: NameReply) => r.NameGiven?);
        (d.NameGiven? && d.name != "" ==> materials == Renamed(old(materials), key, d.name) && error == None) &&
        (d.NameGiven? && d.name == "" ==>
          materials == old(materials) && error == Some(NoNameGiven)) &&
        (d.NameFailed? ==>
          materials == old(materials) && error == Some(SyncNameFailed + OrDefault(d.message, UnknownError)))
    {
      error := None;
      var success, failures := Retry((i: nat) => reply(i).NameGiven?);
      if success && reply(failures).name != "" {
        materials := Renamed(materials, key, reply(failures).name);
      } else if success {
        error := Some(NoNameGiven);
      } else {
        error := Some(SyncNameFailed + OrDefault(reply(2).message, UnknownError));
      }
    }

    /** handleSyncAll: up to three attempts; after a success the counts
        are kept, the list is fetched again, and a warning replaces the
        error when more documents failed to be named than were named. */
    method SyncAll(reply: nat -> SyncAllReply, refreshed: Reply<seq<Doc>>)
      requires Valid()
      modifies this
      ensures Valid()
      ensures var d := Decided(reply, (r: SyncAllReply) => r.SyncDone?);
        d.SyncFailed? ==>
          materials == old(materials) && active == old(active) && page == old(page) &&
          totalPages == old(totalPages) && syncResults == Hidden &&
          error == Some(SyncAllFailed + OrDefault(d.message, UnknownError))
      ensures var d := Decided(reply, (r: SyncAllReply) => r.SyncDone?);
        d.SyncDone? ==>
          syncResults == Counts(d.named, d.errors) &&
          (refreshed.Succeeded? ==> materials == MapAll(refreshed.value, MaterialOf) && page == 1 && totalPages == 1) &&
          (refreshed.Failed? ==> materials == old(materials) && page == old(page) && totalPages == old(totalPages)) &&
          (|materials| == 0 ==> active == None) &&
          (|materials| > 0 ==> active == if old(active).None? then Some(0) else old(active))
      ensures var d := Decided(reply, (r: SyncAllReply) => r.SyncDone?);
        d.SyncDone? ==>
          (d.errors > d.named ==> error == Some(NamingWarning)) &&
          (d.errors <= d.named && refreshed.Succeeded? ==> error == None) &&
          (d.errors <= d.named && refreshed.Failed? ==>
            error == Some(LoadFailed + OrDefault(refreshed.message, UnknownError)))
    {
      syncResults := Hidden;
      error := None;
      var success, failures := Retry((i: nat) => reply(i).SyncDone?);
      if success {
        var done := reply(failures);
        syncResults := Counts(done.named, done.errors);
        Load(refreshed);
        if done.errors > done.named && done.errors > 0 {
          error := Some(NamingWarning);
        }
      } else {
        error := Some(SyncAllFailed + OrDefault(reply(2).message, UnknownError));
      }
    }

    /** The panel's dismiss button: `setSyncResults(null)`. */
    method DismissResults()
      requires Valid()
      modifies this
      ensures Valid()
      ensures syncResults == Hidden && !PanelShown(false, syncResults)
      ensures materials == old(materials) && active == old(active) && page == old(page)
      ensures totalPages == old(totalPages) && error == old(error)
    {
      syncResults := Hidden;
    }
  }
}
