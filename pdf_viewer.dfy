/** The PDF viewer (web-interface/frontned/src/components/PdfViewer.tsx):
    which document it asks for, and the page, zoom and rotation controls.
    The zoom factor is kept in hundredths, so its steps of 0.2 between 0.5
    and 3 are exact. */
module PdfViewer {
  import opened Wrappers
  import opened Strings
  import opened RedisStore

  /** The document key the viewer asks for: a key under the materials
      prefix as it is, any other as the prefix and its last `:` segment. */
  function DocId(key: string): (r: string)
    ensures StartsWith(r, DocPrefix)
    ensures StartsWith(key, DocPrefix) ==> r == key
  {
    if StartsWith(key, DocPrefix) then key else DocPrefix + LastSegment(key, ':')
  }

  /** Normalising twice is normalising once. */
  lemma DocIdIdempotent(key: string)
    ensures DocId(DocId(key)) == DocId(key)
  {
  }

  /** A key under another prefix keeps its last segment: the viewer asks
      for the materials document with the same number. */
  lemma DocIdKeepsLastSegment(key: string)
    requires !StartsWith(key, DocPrefix)
    ensures LastSegment(DocId(key), ':') == LastSegment(key, ':')
  {
    LastSegmentAfter(DocPrefix, LastSegment(key, ':'), ':');
  }

  /** A bare id is asked for under the key the short-id PDF route builds. */
  lemma DocIdOfShortId(id: string)
    requires ':' !in id
    ensures DocId(id) == DocPrefix + id
  {
    assert !StartsWith(id, DocPrefix) by {
      assert |id| < |DocPrefix| || id[..|DocPrefix|][|DocPrefix| - 1] == id[|DocPrefix| - 1];
    }
    assert LastSegment(id, ':') == id;
  }

  /** The name of the downloaded file: the document name, `Document` when
      none is given, `document` when it is empty. */
  function DownloadFileName(documentName: Option<string>): (r: string)
    ensures EndsWith(r, ".pdf") && |r| > 4
  {
    OrDefault(documentName.GetOr("Document"), "document") + ".pdf"
  }

  // ---------------------------------------------------------------------
  // Controls

  /** changePage: the page moves by `offset` when the page count is known
      and non-zero and the new page exists; otherwise it stays. */
  function PageAfter(page: int, offset: int, numPages: Option<nat>): (r: int)
    ensures numPages.None? || numPages == Some(0) ==> r == page
    ensures r == page || r == page + offset
    ensures r != page ==> numPages.Some? && 1 <= r <= numPages.value
  {
    if numPages.None? || numPages.value == 0 then page
    else if 1 <= page + offset <= numPages.value then page + offset
    else page
  }

  /** A page inside the document stays inside it. */
  lemma PageStaysInDocument(page: int, offset: int, n: nat)
    requires 1 <= page <= n
    ensures 1 <= PageAfter(page, offset, Some(n)) <= n
  {
  }

  const MinZoom := 50
  const MaxZoom := 300
  const ZoomStep := 20

  /** zoomIn, in hundredths: one step up, at most 3. */
  function ZoomedIn(scale: int): (r: int)
    ensures r <= MaxZoom && (r == scale + ZoomStep || r == MaxZoom)
  {
    if scale + ZoomStep < MaxZoom then scale + ZoomStep else MaxZoom
  }

  /** zoomOut, in hundredths: one step down, at least 0.5. */
  function ZoomedOut(scale: int): (r: int)
    ensures r >= MinZoom && (r == scale - ZoomStep || r == MinZoom)
  {
    if scale - ZoomStep > MinZoom then scale - ZoomStep else MinZoom
  }

  predicate ZoomInRange(scale: int) {
    MinZoom <= scale <= MaxZoom
  }

  /** Zooming keeps the factor in range, never moves it the wrong way, and
      a step out is undone by a step in unless the lower bound cut it
      short. */
  lemma ZoomBounds(scale: int)
    requires ZoomInRange(scale)
    ensures ZoomInRange(ZoomedIn(scale)) && ZoomInRange(ZoomedOut(scale))
    ensures ZoomedIn(scale) >= scale && ZoomedOut(scale) <= scale
    ensures scale - ZoomStep >= MinZoom ==> ZoomedIn(ZoomedOut(scale)) == scale
    ensures scale + ZoomStep <= MaxZoom ==> ZoomedOut(ZoomedIn(scale)) == scale
  {
  }

  /** From the default 1.0, three steps out reach 0.5 and three steps in
      then reach 1.1, not 1.0: the clamp breaks the step grid. */
  lemma ZoomGridShifts()
    ensures ZoomedOut(ZoomedOut(ZoomedOut(100))) == 50
    ensures ZoomedIn(ZoomedIn(ZoomedIn(50))) == 110
  {
  }

  /** rotate: a quarter turn clockwise, in degrees modulo 360. */
  function Rotated(rotation: int): (r: int)
    ensures 0 <= r < 360
    ensures 0 <= rotation < 270 ==> r == rotation + 90
  {
    (rotation + 90) % 360
  }

  predicate QuarterTurn(rotation: int) {
    rotation == 0 || rotation == 90 || rotation == 180 || rotation == 270
  }

  /** Rotation stays on quarter turns and four of them restore it. */
  lemma RotationCycle(rotation: int)
    requires QuarterTurn(rotation)
    ensures QuarterTurn(Rotated(rotation))
    ensures Rotated(Rotated(Rotated(Rotated(rotation)))) == rotation
  {
  }

  class PdfView {
    var numPages: Option<nat>
    var page: int
    var scale: int
    var rotation: int
    var loading: bool
    var error: Option<string>

    /** The controls' ranges: a page from 1, the zoom in range, a quarter
        turn. */
    predicate Valid()
      reads this
    {
      page >= 1 && ZoomInRange(scale) && QuarterTurn(rotation)
    }

    /** A fresh viewer: page 1, zoom 1.0, no rotation, loading. */
    constructor()
      ensures Valid()
      ensures numPages == None && page == 1 && scale == 100 && rotation == 0 && loading && error == None
    {
      numPages := None;
      page := 1;
      scale := 100;
      rotation := 0;
      loading := true;
      error := None;
    }

    /** onDocumentLoadSuccess. The page is not reset. */
    method LoadSucceeded(n: nat)
      requires Valid()
      modifies this
      ensures Valid()
      ensures numPages == Some(n) && !loading
      ensures page == old(page) && scale == old(scale) && rotation == old(rotation) && error == old(error)
    {
      numPages := Some(n);
      loading := false;
    }

    /** onDocumentLoadError. */
    method LoadFailed()
      requires Valid()
      modifies this
      ensures Valid()
      ensures error == Some("Failed to load PDF document") && !loading
      ensures numPages == old(numPages) && page == old(page) && scale == old(scale) && rotation == old(rotation)
    {
      error := Some("Failed to load PDF document");
      loading := false;
    }

    /** changePage, and with it previousPage (-1) and nextPage (+1). */
    method ChangePage(offset: int)
      requires Valid()
      modifies this
      ensures Valid()
      ensures page == PageAfter(old(page), offset, numPages)
      ensures numPages == old(numPages) && scale == old(scale) && rotation == old(rotation)
      ensures loading == old(loading) && error == old(error)
    {
      if numPages.None? || numPages.value == 0 {
        return;
      }
      var newPage := page + offset;
      if newPage >= 1 && newPage <= numPages.value {
        page := newPage;
      }
    }

    /** zoomIn. */
    method ZoomIn()
      requires Valid()
      modifies this
      ensures Valid()
      ensures scale == ZoomedIn(old(scale))
      ensures numPages == old(numPages) && page == old(page) && rotation == old(rotation)
      ensures loading == old(loading) && error == old(error)
    {
      ZoomBounds(scale);
      scale := if scale + ZoomStep < MaxZoom then scale + ZoomStep else MaxZoom;
    }

    /** zoomOut. */
    method ZoomOut()
      requires Valid()
      modifies this
      ensures Valid()
      ensures scale == ZoomedOut(old(scale))
      ensures numPages == old(numPages) && page == old(page) && rotation == old(rotation)
      ensures loading == old(loading) && error == old(error)
    {
      ZoomBounds(scale);
      scale := if scale - ZoomStep > MinZoom then scale - ZoomStep else MinZoom;
    }

    /** rotate. */
    method Rotate()
      requires Valid()
      modifies this
      ensures Valid()
      ensures rotation == Rotated(old(rotation))
      ensures numPages == old(numPages) && page == old(page) && scale == old(scale)
      ensures loading == old(loading) && error == old(error)
    {
      RotationCycle(rotation);
      rotation := (rotation + 90) % 360;
    }
  }
}
