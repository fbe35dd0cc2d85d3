/** The two PDF routes of the Flask backend
    (web-interface/backend/pdf_handler_routes.py): a stored PDF by full key
    and by the short id after `doc:brasov-cursuri:`. Both only read the
    store, so they are functions of its contents. */
module PdfRoutes {
  import opened Strings
  import opened RedisStore

  /** The answer of either route: a 404 with its message, or the PDF bytes
      served inline under a file name. */
  datatype PdfReply = NotFound(error: string) | Pdf(bytes: string, fileName: string)

  /** The name a PDF is served under: the stored `name` when it is
      non-empty, else `fallback`, with `.pdf` appended. */
  function DownloadName(h: Hash, fallback: string): (r: string)
    ensures EndsWith(r, ".pdf")
    ensures "name" in h && h["name"] != "" ==> r[..|r| - 4] == h["name"]
    ensures !("name" in h && h["name"] != "") ==> r[..|r| - 4] == fallback
  {
    var stem := if "name" in h && h["name"] != "" then h["name"] else fallback;
    assert (stem + ".pdf")[..|stem|] == stem;
    stem + ".pdf"
  }

  /** get_pdf_by_full_key: the checks run in order (key absent, no
      `pdf_data` field, empty `pdf_data`), each a 404 with its own message;
      the default name is the last `:` segment of the key. */
  function PdfByKey(data: map<string, Hash>, key: string): (r: PdfReply)
    ensures r.NotFound? <==> key !in data || "pdf_data" !in data[key] || data[key]["pdf_data"] == ""
    ensures key !in data ==> r == NotFound("Document not found")
    ensures key in data && "pdf_data" !in data[key] ==> r == NotFound("Document has no PDF data")
    ensures r.Pdf? ==> r.bytes == data[key]["pdf_data"] && r.bytes != ""
    ensures r.Pdf? ==> r.fileName == DownloadName(data[key], LastSegment(key, ':'))
  {
    if key !in data then NotFound("Document not found")
    else if "pdf_data" !in data[key] then NotFound("Document has no PDF data")
    else if data[key]["pdf_data"] == "" then NotFound("PDF data is empty")
    else Pdf(data[key]["pdf_data"], DownloadName(data[key], LastSegment(key, ':')))
  }

  /** get_document_pdf_by_short_id: the key is `doc:brasov-cursuri:{id}`;
      an absent key, and a missing or empty `pdf_data`, are 404s; the default
      name is the short id itself. */
  function PdfByShortId(data: map<string, Hash>, id: string): (r: PdfReply)
    ensures var key := DocPrefix + id;
      (r.NotFound? <==> key !in data || "pdf_data" !in data[key] || data[key]["pdf_data"] == "") &&
      (key !in data ==> r == NotFound("Document not found")) &&
      (key in data && r.NotFound? ==> r == NotFound("No PDF data for this document")) &&
      (r.Pdf? ==> r.bytes == data[key]["pdf_data"] && r.fileName == DownloadName(data[key], id))
  {
    var key := DocPrefix + id;
    if key !in data then NotFound("Document not found")
    else if "pdf_data" !in data[key] || data[key]["pdf_data"] == "" then NotFound("No PDF data for this document")
    else Pdf(data[key]["pdf_data"], DownloadName(data[key], id))
  }

  /** For a short id without `:`, both routes serve the same document the
      same way: the same PDF under the same name, or both a 404. */
  lemma ShortIdMatchesFullKey(data: map<string, Hash>, id: string)
    requires ':' !in id
    ensures PdfByShortId(data, id).Pdf? <==> PdfByKey(data, DocPrefix + id).Pdf?
    ensures PdfByShortId(data, id).Pdf? ==> PdfByShortId(data, id) == PdfByKey(data, DocPrefix + id)
  {
    LastSegmentAfter(DocPrefix, id, ':');
  }
}
