/** The PDF upload form (web-interface/frontned/src/components/PdfUploader.tsx):
    a file is chosen or dropped, its text is extracted page by page, and the
    text is sent to the materials upload endpoint. Each handler is one
    atomic step; pdf.js and the upload request are given as their outcomes. */
module PdfUploader {
  import opened Wrappers
  import opened Strings

  datatype Step = Select | Extract | Confirm | Uploading | Success

  /** The part of a browser `File` the form looks at. */
  datatype PdfFile = PdfFile(name: string, mimeType: string)

  /** What the upload request came back with: a failed request, a body
      without `success`, or success with the generated name (`""` when the
      body has none). */
  datatype UploadReply = RequestFailed | Rejected | Uploaded(name: string)

  const PdfType := "application/pdf"
  const PdfSuffix := ".pdf"
  /** What follows each page's text in the buffer. */
  const PageBreak := "\n\n"
  const NotAPdf := "Please select a valid PDF file"
  const DroppedNotAPdf := "Please drop a valid PDF file"
  const NoFile := "Please select a PDF file first"
  const ExtractFailed := "Failed to extract text from the PDF"
  const NoText := "No text to upload"
  const UploadFailed := "Failed to upload to API"

  // ---------------------------------------------------------------------
  // Title and text

  /** `name.replace('.pdf', '')`: the first `.pdf` taken out. */
  function TitleOf(name: string): (r: string)
    ensures IndexOf(name, PdfSuffix, 0).None? ==> r == name
    ensures IndexOf(name, PdfSuffix, 0).Some? ==> |r| == |name| - |PdfSuffix|
  {
    match IndexOf(name, PdfSuffix, 0)
    case None => name
    case Some(k) => name[..k] + name[k + |PdfSuffix|..]
  }

  /** A file name that is a base and `.pdf`, the base holding no `.pdf` of
      its own, gives the base as title: `.pdf` cannot overlap itself, so
      the suffix is the first occurrence. */
  lemma TitleOfPdfName(base: string)
    requires forall k: nat :: !IsAt(base, PdfSuffix, k)
    ensures TitleOf(base + PdfSuffix) == base
  {
    var s := base + PdfSuffix;
    forall k: nat | k < |base|
      ensures !IsAt(s, PdfSuffix, k)
    {
      if k + |PdfSuffix| <= |base| {
        assert s[k..k + |PdfSuffix|] == base[k..k + |PdfSuffix|];
        assert !IsAt(base, PdfSuffix, k);
      } else {
        assert s[|base|] == '.';
        assert k + |PdfSuffix| > |s| || s[k..k + |PdfSuffix|][|base| - k] == '.';
      }
    }
    assert s[|base|..|base| + |PdfSuffix|] == PdfSuffix;
    assert IsAt(s, PdfSuffix, |base|);
    assert IndexOf(s, PdfSuffix, 0) == Some(|base|);
    assert s[..|base|] == base;
  }

  /** One page's text: its item strings joined by spaces. */
  function PageText(items: seq<string>): (r: string)
    ensures |items| == 1 ==> r == items[0]
    ensures |items| == 0 ==> r == ""
  {
    if |items| == 0 then "" else Join(items, ' ')
  }

  /** The extraction buffer after the given pages: each page's text
      followed by a blank line. */
  function PagesText(pages: seq<seq<string>>): (r: string)
  {
    if |pages| == 0 then ""
    else PagesText(pages[..|pages| - 1]) + PageText(pages[|pages| - 1]) + PageBreak
  }

  /** The buffer grows page by page. */
  lemma PagesTextPrefix(pages: seq<seq<string>>, i: nat)
    requires i < |pages|
    ensures PagesText(pages[..i + 1]) == PagesText(pages[..i]) + PageText(pages[i]) + PageBreak
  {
    assert pages[..i + 1][..i] == pages[..i];
  }

  /** The text the extraction returns: the buffer trimmed. */
  function ExtractedText(pages: seq<seq<string>>): string
  {
    Trim(PagesText(pages))
  }

  /** A one-page document whose items show no white space at either end
      comes out as those items joined by spaces. */
  lemma SinglePageText(items: seq<string>)
    requires |items| > 0 && |PageText(items)| > 0
    requires !IsSpace(PageText(items)[0]) && !IsSpace(PageText(items)[|PageText(items)| - 1])
    ensures ExtractedText([items]) == PageText(items)
  {
    var t := PageText(items);
    var s := PagesText([items]);
    assert [items][..0] == [] && [items][0] == items;
    assert s == PagesText([]) + t + PageBreak;
    assert SpaceRunEnd(s, 0) == 0;
    assert SpaceRunStart(s, 0, |s|) == |t| by {
      assert s[|s| - 1] == '\n' && s[|s| - 2] == '\n';
      assert SpaceRunStart(s, 0, |s|) == SpaceRunStart(s, 0, |s| - 2);
      assert s[|t| - 1] == t[|t| - 1];
    }
    assert s[0..|t|] == t;
  }

  /** `Math.round(i / n * 100)` on exact values: half up. */
  function Progress(i: nat, n: nat): (r: nat)
    requires 1 <= i <= n
    ensures r <= 100
    ensures i == n ==> r == 100
  {
    DivBelow(200 * i + n, 2 * n, 100);
    if i == n then DivExact(200 * i + n, 2 * n, 100); (200 * i + n) / (2 * n)
    else (200 * i + n) / (2 * n)
  }

  /** A quotient is below any bound whose next multiple exceeds the
      dividend. */
  lemma DivBelow(x: nat, d: nat, q: nat)
    requires d > 0 && x < (q + 1) * d
    ensures x / d <= q
  {
    var r := x / d;
    assert x == r * d + x % d;
  }

  lemma DivExact(x: nat, d: nat, q: nat)
    requires d > 0 && q * d <= x < (q + 1) * d
    ensures x / d == q
  {
    DivBelow(x, d, q);
    DivAtLeast(x, d, q);
  }

  lemma MulMonotone(a: nat, b: nat, d: nat)
    requires a <= b
    ensures a * d <= b * d
  {
  }

  /** Progress never goes back as pages are read. */
  lemma ProgressMonotone(i: nat, j: nat, n: nat)
    requires 1 <= i <= j <= n
    ensures Progress(i, n) <= Progress(j, n)
  {
    var a := 200 * i + n;
    var b := 200 * j + n;
    var d := 2 * n;
    assert a <= b;
    var qa := a / d;
    assert qa * d <= a;
    assert qa * d <= b;
    DivAtLeast(b, d, qa);
  }

  lemma DivAtLeast(b: nat, d: nat, q: nat)
    requires d > 0 && q * d <= b
    ensures q <= b / d
  {
    var r := b / d;
    assert b == r * d + b % d;
    if q > r {
      MulMonotone(r + 1, q, d);
    }
  }

  // ---------------------------------------------------------------------
  // The form

  class Uploader {
    var file: Option<PdfFile>
    var text: string
    var title: string
    var generatedName: string
    var error: Option<string>
    var progress: nat
    var step: Step

    /** Progress is a percentage, and only a non-empty text is ever sent. */
    predicate Valid()
      reads this
    {
      progress <= 100 && (step == Uploading || step == Success ==> text != "")
    }

    /** The empty form at the selection step. */
    constructor()
      ensures Valid()
      ensures file == None && text == "" && title == "" && generatedName == ""
      ensures error == None && progress == 0 && step == Select
    {
      file := None;
      text := "";
      title := "";
      generatedName := "";
      error := None;
      progress := 0;
      step := Select;
    }

    /** Accepting a PDF: the file is kept, the error cleared, the step moves
        to extraction, and a named file gives the title. */
    method Accept(f: PdfFile)
      requires Valid() && f.mimeType == PdfType
      modifies this
      ensures Valid()
      ensures file == Some(f) && error == None && step == Extract
      ensures title == (if f.name != "" then TitleOf(f.name) else old(title))
      ensures text == old(text) && generatedName == old(generatedName) && progress == old(progress)
    {
      file := Some(f);
      error := None;
      step := Extract;
      if f.name != "" {
        title := TitleOf(f.name);
      }
    }

    /** handleFileChange: a PDF is accepted; anything else, or nothing,
        clears the file and sets an error without changing the step. */
    method FileChosen(selected: Option<PdfFile>)
      requires Valid()
      modifies this
      ensures Valid()
      ensures selected.Some? && selected.value.mimeType == PdfType ==>
        file == selected && error == None && step == Extract &&
        title == (if selected.value.name != "" then TitleOf(selected.value.name) else old(title))
      ensures !(selected.Some? && selected.value.mimeType == PdfType) ==>
        file == None && error == Some(NotAPdf) && step == old(step) && title == old(title)
      ensures text == old(text) && generatedName == old(generatedName) && progress == old(progress)
    {
      if selected.Some? && selected.value.mimeType == PdfType {
        Accept(selected.value);
      } else {
        error := Some(NotAPdf);
        file := None;
      }
    }

    /** handleDrop: an empty drop changes nothing; a PDF first in the drop
        is accepted; anything else only sets an error. */
    method Dropped(files: seq<PdfFile>)
      requires Valid()
      modifies this
      ensures Valid()
      ensures |files| == 0 ==> file == old(file) && error == old(error) && step == old(step) && title == old(title)
      ensures |files| > 0 && files[0].mimeType == PdfType ==>
        file == Some(files[0]) && error == None && step == Extract &&
        title == (if files[0].name != "" then TitleOf(files[0].name) else old(title))
      ensures |files| > 0 && files[0].mimeType != PdfType ==>
        file == old(file) && error == Some(DroppedNotAPdf) && step == old(step) && title == old(title)
      ensures text == old(text) && generatedName == old(generatedName) && progress == old(progress)
    {
      if |files| > 0 {
        if files[0].mimeType == PdfType {
          Accept(files[0]);
        } else {
          error := Some(DroppedNotAPdf);
        }
      }
    }

    /** The page loop of extractTextFromPdf: each page's text and a blank
        line are added to the buffer, and progress follows the pages read. */
    method ReadPages(ps: seq<seq<string>>) returns (fullText: string)
      requires progress == 0
      modifies this`progress
      ensures fullText == PagesText(ps)
      ensures progress == if |ps| == 0 then 0 else 100
    {
      fullText := "";
      var i := 0;
      while i < |ps|
        invariant 0 <= i <= |ps|
        invariant fullText == PagesText(ps[..i])
        invariant progress == if i == 0 then 0 else Progress(i, |ps|)
      {
        PagesTextPrefix(ps, i);
        fullText := fullText + PageText(ps[i]) + PageBreak;
        i := i + 1;
        progress := Progress(i, |ps|);
      }
      assert ps[..i] == ps;
    }

    /** handleExtract, with extractTextFromPdf inlined: `pages` is what
        pdf.js reads from the file, page by page, or None when it fails.
        The text is assembled page by page and progress follows the pages
        read. */
    method ExtractText(pages: Option<seq<seq<string>>>)
      requires Valid()
      modifies this
      ensures Valid()
      ensures old(file).None? ==>
        error == Some(NoFile) && step == old(step) && text == old(text) && progress == old(progress)
      ensures old(file).Some? && pages.Some? ==>
        error == None && step == Confirm && text == ExtractedText(pages.value) &&
        progress == (if |pages.value| == 0 then 0 else 100)
      ensures old(file).Some? && pages.None? ==>
        error == Some(ExtractFailed) && step == Select && text == old(text) && progress == 0
      ensures file == old(file) && title == old(title) && generatedName == old(generatedName)
    {
      if file.None? {
        error := Some(NoFile);
        return;
      }
      error := None;
      progress := 0;
      if pages.None? {
        error := Some(ExtractFailed);
        step := Select;
        return;
      }
      var fullText := ReadPages(pages.value);
      text := Trim(fullText);
      step := Confirm;
    }

    /** handleConfirm, with uploadToApi inlined: an empty text is refused;
        otherwise the text is sent, and the form ends at the success step
        or back at confirmation. A failed request leaves progress at 0, a
        rejected body after it was set to 100. */
    method ConfirmUpload(reply: UploadReply)
      requires Valid()
      modifies this
      ensures Valid()
      ensures old(text) == "" ==>
        error == Some(NoText) && step == old(step) && progress == old(progress) && generatedName == old(generatedName)
      ensures old(text) != "" && reply.Uploaded? ==>
        error == None && step == Success && progress == 100 &&
        generatedName == OrDefault(reply.name, old(generatedName))
      ensures old(text) != "" && !reply.Uploaded? ==>
        error == Some(UploadFailed) && step == Confirm && generatedName == old(generatedName) &&
        progress == (if reply.RequestFailed? then 0 else 100)
      ensures file == old(file) && text == old(text) && title == old(title)
    {
      if text == "" {
        error := Some(NoText);
        return;
      }
      error := None;
      step := Uploading;
      progress := 0;
      if reply.RequestFailed? {
        error := Some(UploadFailed);
        step := Confirm;
        return;
      }
      progress := 100;
      if reply.Rejected? {
        error := Some(UploadFailed);
        step := Confirm;
        return;
      }
      if reply.name != "" {
        generatedName := reply.name;
      }
      step := Success;
    }

    /** The timer set by a successful upload: the form is emptied and
        returns to the selection step. */
    method SuccessTimerFired()
      requires Valid()
      modifies this
      ensures Valid()
      ensures file == None && text == "" && title == "" && step == Select
      ensures error == old(error) && progress == old(progress) && generatedName == old(generatedName)
    {
      file := None;
      text := "";
      title := "";
      step := Select;
    }

    /** handleCancel: back to the selection step with the file, text,
        title and error cleared, from any step. */
    method Cancel()
      requires Valid()
      modifies this
      ensures Valid()
      ensures file == None && text == "" && title == "" && error == None && step == Select
      ensures progress == old(progress) && generatedName == old(generatedName)
    {
      file := None;
      text := "";
      title := "";
      step := Select;
      error := None;
    }
  }
}
