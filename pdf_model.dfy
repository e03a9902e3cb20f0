/**
 * The PDF library's view of a document, as plain values: what the rule engines read from a
 * loaded document and its pages. Loading, box lookup and font resolution happen outside.
 */
module PdfModel {
  import opened Geometry
  import opened Fonts

  /** A page: its crop box and media box in whole millimetres, and its font resources. */
  datatype Page = Page(cropBox: Size, mediaBox: Size, resources: PageResources)

  /** A loaded document: encryption flag, declared page count, header version, and its pages. */
  datatype Document = Document(encrypted: bool, pageCount: int, version: real, pages: seq<Page>)

  /**
   * How loading ended: a document (and whether closing it afterwards fails), a password
   * refusal, or any other failure.
   */
  datatype Load<D> = Loaded(doc: D, closeFails: bool) | WrongPassword | ParseFailure

  /**
   * The answer of the text extraction for a region of a page: text found, no text, the
   * extraction dereferenced a missing value (a NullPointerException), or it failed to read
   * the page (an IOException).
   */
  datatype MarginProbe = TextFound | NoText | Unverifiable | ReadError
}
