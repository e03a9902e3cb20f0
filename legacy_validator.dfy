/**
 * The older rule engine (PrintPdfValidator): fixed page limit and versions, exact A4 on the
 * media box, a silent zone at a fixed position, and two page loops: the in-memory one used by
 * the public entry points, and a streaming one that loads pages one at a time and survives
 * pages that fail to load.
 */
module LegacyValidator {
  import opened Optional
  import opened ValidationErrors
  import opened Geometry
  import opened Fonts
  import opened PdfModel
  import opened Checks
  import opened LegacySettings
  import opened LegacyResults
  import Validator

  const LegacyBarcodeAreaWidthMm: int := 18
  const LegacyBarcodeAreaHeightMm: int := 70
  const LegacyBarcodeAreaXPosMm: int := 0
  const LegacyBarcodeAreaYPosMm: int := 100
  const MaxPagesForAutomatedPrint: int := 12
  const VersionsSupportedForPrint: seq<real> := [1.0, 1.1, 1.2, 1.3, 1.4, 1.5]

  /** The barcode zone, the same rectangle on every page whatever its orientation, in tenths of a point. */
  const FixedZone: Rect :=
    RectToPointTenths(Rect(LegacyBarcodeAreaXPosMm, LegacyBarcodeAreaYPosMm, LegacyBarcodeAreaWidthMm, LegacyBarcodeAreaHeightMm))

  const FixedZoneOf: Page -> Rect := (page: Page) => FixedZone

  /** harUgyldigeDimensjoner: anything but exactly 210 by 297 mm is rejected. */
  predicate HasWrongDimensions(box: Size) {
    box.heightMm != A4HeightMm || box.widthMm != A4WidthMm
  }

  const InvalidMediaBox: Page -> bool := (page: Page) => HasWrongDimensions(page.mediaBox)

  /** A page's fonts are rejected when the font predicate does not accept them. */
  function Rejects(supported: seq<Font> -> bool): seq<Font> -> bool {
    (fonts: seq<Font>) => !supported(fonts)
  }

  /** validerSideantall with the fixed limit, then validerPdfVersjon with versions 1.0 to 1.5. */
  function CountAndVersionErrors(pageCount: int, version: real, s: PrintSettings): seq<ValidationError> {
    (if s.validatePageCount then PageCountErrors(pageCount, MaxPagesForAutomatedPrint) else [])
      + (if s.validatePdfVersion then VersionErrors(version, VersionsSupportedForPrint) else [])
  }

  /** The in-memory margin scan's outcome, or nothing found when the check is off. */
  function MarginOutcome(pages: seq<Page>, s: PrintSettings, textInZone: (Page, Rect) -> MarginProbe): Option<MarginFlags> {
    if s.validateLeftMargin then MarginFold(Probes(pages, FixedZoneOf, textInZone)) else Some(MarginFlags(false, false))
  }

  /** The in-memory font check's outcome, or no errors when the check is off. */
  function FontOutcome(pages: seq<Page>, s: PrintSettings, supported: seq<Font> -> bool): Option<seq<ValidationError>> {
    if s.validateFonts then FontErrorsBy(pages, Rejects(supported)) else Some([])
  }

  /** The checks before the margin loop: page count, version, then dimensions of the media box. */
  function HeadErrors(doc: Document, s: PrintSettings): seq<ValidationError> {
    CountAndVersionErrors(doc.pageCount, doc.version, s)
      + (if AnyInvalid(doc.pages, InvalidMediaBox) then [UnsupportedDimensions] else [])
  }

  /**
   * What validerDokumentForPrint returns; None when it throws. The order is page count,
   * version, dimensions, unable-to-verify, insufficient margin, fonts.
   */
  function DocumentErrors(doc: Document, s: PrintSettings, textInZone: (Page, Rect) -> MarginProbe,
                          supported: seq<Font> -> bool): Option<seq<ValidationError>> {
    if doc.encrypted then Some([PdfIsEncrypted])
    else match MarginOutcome(doc.pages, s, textInZone)
      case None => None
      case Some(m) =>
        match FontOutcome(doc.pages, s, supported)
        case None => None
        case Some(fontErrors) =>
          Some(HeadErrors(doc, s) + MarginErrors(m) + fontErrors)
  }

  /** validerSideantall: appends the page-count errors for the fixed limit of 12. */
  method CheckPageCount(numberOfPages: int, errors0: seq<ValidationError>) returns (errors: seq<ValidationError>)
    ensures errors == errors0 + PageCountErrors(numberOfPages, MaxPagesForAutomatedPrint)
  {
    errors := errors0;
    if numberOfPages > MaxPagesForAutomatedPrint {
      errors := errors + [TooManyPagesForAutomatedPrint];
    }
    if numberOfPages == 0 {
      errors := errors + [DocumentHasNoPages];
    }
  }

  /** validerPdfVersjon: appends the version error unless the version is 1.0 to 1.5. */
  method CheckPdfVersion(version: real, errors0: seq<ValidationError>) returns (errors: seq<ValidationError>)
    ensures errors == errors0 + VersionErrors(version, VersionsSupportedForPrint)
  {
    errors := errors0;
    if version !in VersionsSupportedForPrint {
      errors := errors + [UnsupportedPdfVersionForPrint];
    }
  }

  /** The two setting-gated checks that open both page loops. */
  method CheckCountAndVersion(pageCount: int, version: real, s: PrintSettings, errors0: seq<ValidationError>)
    returns (errors: seq<ValidationError>)
    ensures errors == errors0 + CountAndVersionErrors(pageCount, version, s)
  {
    errors := errors0;
    if s.validatePageCount {
      errors := CheckPageCount(pageCount, errors);
    }
    if s.validatePdfVersion {
      errors := CheckPdfVersion(version, errors);
    }
  }

  /** The font loop of validerDokumentForPrint: one error per page whose fonts are not accepted. */
  method CheckFonts(pages: seq<Page>, supported: seq<Font> -> bool, errors0: seq<ValidationError>)
    returns (errors: seq<ValidationError>, thrown: bool)
    ensures var outcome := FontErrorsBy(pages, Rejects(supported));
      (thrown <==> outcome.None?) && (!thrown ==> errors == errors0 + outcome.value)
  {
    errors, thrown := errors0, false;
    ghost var found: seq<ValidationError> := [];
    var i := 0;
    while i < |pages|
      invariant 0 <= i <= |pages|
      invariant FontErrorsBy(pages[..i], Rejects(supported)) == Some(found)
      invariant errors == errors0 + found
    {
      var fonts, failed := GetPageFonts(pages[i].resources);
      FontErrorsSnoc(pages, i, Rejects(supported), found);
      if failed {
        FontErrorsStopAt(pages, i + 1, Rejects(supported));
        thrown := true;
        return;
      }
      if !supported(fonts) {
        errors := errors + [ReferencesInvalidFont];
      }
      found := found + PageFontErrors(fonts, Rejects(supported));
      i := i + 1;
    }
    assert pages[..i] == pages;
  }

  /** validerDokumentForPrint: the checks in source order; `thrown` when an exception escapes. */
  method ValidateDocument(doc: Document, s: PrintSettings, textInZone: (Page, Rect) -> MarginProbe,
                          supported: seq<Font> -> bool)
    returns (errors: seq<ValidationError>, thrown: bool)
    ensures thrown <==> DocumentErrors(doc, s, textInZone, supported).None?
    ensures !thrown ==> errors == DocumentErrors(doc, s, textInZone, supported).value
  {
    if doc.encrypted {
      return [PdfIsEncrypted], false;
    }
    errors := CheckHead(doc, s);
    errors, thrown := CheckMargins(doc, s, textInZone, errors);
    if thrown {
      return;
    }
    ghost var flags := MarginOutcome(doc.pages, s, textInZone).value;
    if s.validateFonts {
      errors, thrown := CheckFonts(doc.pages, supported, errors);
    }
    DocumentErrorsAfterMargins(doc, s, textInZone, supported, flags);
  }

  /** The checks before the margin scan: page count, version, then the dimension loop. */
  method CheckHead(doc: Document, s: PrintSettings) returns (errors: seq<ValidationError>)
    ensures errors == HeadErrors(doc, s)
  {
    errors := CheckCountAndVersion(doc.pageCount, doc.version, s, []);
    assert errors == CountAndVersionErrors(doc.pageCount, doc.version, s);
    var documentHasInvalidDimensions := ScanDimensions(doc.pages, InvalidMediaBox);
    if documentHasInvalidDimensions {
      errors := errors + [UnsupportedDimensions];
    }
  }

  /** The margin scan, when enabled, and the two margin errors it may add. */
  method CheckMargins(doc: Document, s: PrintSettings, textInZone: (Page, Rect) -> MarginProbe,
                      errors0: seq<ValidationError>)
    returns (errors: seq<ValidationError>, thrown: bool)
    ensures thrown <==> MarginOutcome(doc.pages, s, textInZone).None?
    ensures !thrown ==> errors == errors0 + MarginErrors(MarginOutcome(doc.pages, s, textInZone).value)
  {
    errors, thrown := errors0, false;
    var hasTextInBarcodeArea := false;
    var pagesWithUncheckableMargins := false;
    if s.validateLeftMargin {
      pagesWithUncheckableMargins, hasTextInBarcodeArea, thrown := ScanMargins(doc.pages, FixedZoneOf, textInZone);
      if thrown {
        return;
      }
    }
    if pagesWithUncheckableMargins {
      errors := errors + [UnableToVerifySuitableMarginForPrint];
    }
    if hasTextInBarcodeArea {
      errors := errors + [InsufficientMarginForPrint];
    }
    assert MarginOutcome(doc.pages, s, textInZone) == Some(MarginFlags(pagesWithUncheckableMargins, hasTextInBarcodeArea));
  }

  /** Once the margin scan has succeeded, the result hinges on the font check alone. */
  lemma DocumentErrorsAfterMargins(doc: Document, s: PrintSettings, textInZone: (Page, Rect) -> MarginProbe,
                                   supported: seq<Font> -> bool, m: MarginFlags)
    requires !doc.encrypted
    requires MarginOutcome(doc.pages, s, textInZone) == Some(m)
    ensures var fonts := FontOutcome(doc.pages, s, supported);
      DocumentErrors(doc, s, textInZone, supported) ==
        if fonts.None? then None
        else Some(HeadErrors(doc, s) + MarginErrors(m) + fonts.value)
  {
  }

  /**
   * A document read page by page: the pages the parser reports, each either loaded or failed
   * to load.
   */
  datatype StreamDocument = StreamDocument(encrypted: bool, version: real, pages: seq<Option<Page>>)

  /** The four accumulators of the streaming loop, and the font errors appended so far. */
  datatype StreamFlags = StreamFlags(
    invalidDimensions: bool,
    uncheckableMargins: bool,
    insufficientMargin: bool,
    unparsablePages: bool,
    fontErrors: seq<ValidationError>)

  /** The margin part of one page in the streaming loop. */
  function MarginStep(st: StreamFlags, probe: MarginProbe): Option<StreamFlags> {
    match probe
    case TextFound => Some(st.(insufficientMargin := true))
    case Unverifiable => Some(st.(uncheckableMargins := true))
    case NoText => Some(st)
    case ReadError => None
  }

  /**
   * One iteration of the streaming loop. A page that failed to load only sets the parse flag.
   * A loaded page: the dimension test until one page fails it, the margin test until text is
   * found, and the font test, which appends its error at once. None when an exception escapes.
   */
  function StreamStep(st: StreamFlags, page: Option<Page>, s: PrintSettings,
                      textInZone: (Page, Rect) -> MarginProbe, supported: seq<Font> -> bool): Option<StreamFlags> {
    match page
    case None => Some(st.(unparsablePages := true))
    case Some(p) =>
      match MarginPart(DimensionStep(st, p), p, s, textInZone)
      case None => None
      case Some(st2) => FontPart(st2, p, s, supported)
  }

  /** The dimension test of a loaded page, skipped once a page has failed it. */
  function DimensionStep(st: StreamFlags, p: Page): StreamFlags {
    if !st.invalidDimensions && HasWrongDimensions(p.mediaBox) then st.(invalidDimensions := true) else st
  }

  /** The margin test of a loaded page, when enabled and until text has been found. */
  function MarginPart(st: StreamFlags, p: Page, s: PrintSettings, textInZone: (Page, Rect) -> MarginProbe): Option<StreamFlags> {
    if s.validateLeftMargin && !st.insufficientMargin then MarginStep(st, textInZone(p, FixedZone)) else Some(st)
  }

  /** The font test of a loaded page, when enabled; None when its fonts cannot be resolved. */
  function FontPart(st: StreamFlags, p: Page, s: PrintSettings, supported: seq<Font> -> bool): Option<StreamFlags> {
    if !s.validateFonts then Some(st)
    else match PageFonts(p.resources)
      case None => None
      case Some(fonts) => Some(st.(fontErrors := st.fontErrors + PageFontErrors(fonts, Rejects(supported))))
  }

  /** The streaming loop over the pages, from all accumulators off. */
  function StreamFold(pages: seq<Option<Page>>, s: PrintSettings, textInZone: (Page, Rect) -> MarginProbe,
                      supported: seq<Font> -> bool): Option<StreamFlags> {
    if pages == [] then Some(StreamFlags(false, false, false, false, []))
    else match StreamFold(pages[..|pages| - 1], s, textInZone, supported)
      case None => None
      case Some(st) => StreamStep(st, pages[|pages| - 1], s, textInZone, supported)
  }

  /** After the loop: dimensions, insufficient margin, unparsable pages, unable-to-verify. */
  function TailErrors(st: StreamFlags): seq<ValidationError> {
    (if st.invalidDimensions then [UnsupportedDimensions] else [])
      + (if st.insufficientMargin then [InsufficientMarginForPrint] else [])
      + (if st.unparsablePages then [PdfParsePageError] else [])
      + (if st.uncheckableMargins then [UnableToVerifySuitableMarginForPrint] else [])
  }

  /** What validerStreamForPrint returns; None when it throws. */
  function StreamErrors(doc: StreamDocument, s: PrintSettings, textInZone: (Page, Rect) -> MarginProbe,
                        supported: seq<Font> -> bool): Option<seq<ValidationError>> {
    if doc.encrypted then Some([PdfIsEncrypted])
    else match StreamFold(doc.pages, s, textInZone, supported)
      case None => None
      case Some(st) => Some(CountAndVersionErrors(|doc.pages|, doc.version, s) + st.fontErrors + TailErrors(st))
  }

  /** Once the streaming loop has thrown, later pages do not matter. */
  lemma {:induction false} StreamFoldStopsAt(pages: seq<Option<Page>>, i: nat, s: PrintSettings,
                                             textInZone: (Page, Rect) -> MarginProbe, supported: seq<Font> -> bool)
    requires i <= |pages|
    requires StreamFold(pages[..i], s, textInZone, supported).None?
    ensures StreamFold(pages, s, textInZone, supported).None?
    decreases |pages| - i
  {
    if i < |pages| {
      assert pages[..i + 1][..i] == pages[..i];
      StreamFoldStopsAt(pages, i + 1, s, textInZone, supported);
    } else {
      assert pages[..i] == pages;
    }
  }

  /**
   * The body of the streaming loop for a page that loaded: dimension test until one page has
   * failed it, margin test until text has been found, then the font test. `fontError` tells
   * whether the page appended REFERENCES_INVALID_FONT.
   */
  method VisitPage(st: StreamFlags, page: Page, s: PrintSettings, textInZone: (Page, Rect) -> MarginProbe,
                   supported: seq<Font> -> bool)
    returns (next: StreamFlags, fontError: bool, thrown: bool)
    ensures thrown <==> StreamStep(st, Some(page), s, textInZone, supported).None?
    ensures !thrown ==> next == StreamStep(st, Some(page), s, textInZone, supported).value
    ensures !thrown ==> next.fontErrors == st.fontErrors + (if fontError then [ReferencesInvalidFont] else [])
  {
    next, fontError, thrown := st, false, false;
    if !next.invalidDimensions {
      if HasWrongDimensions(page.mediaBox) {
        next := next.(invalidDimensions := true);
      }
    }
    assert next == DimensionStep(st, page);
    next, thrown := VisitMargin(next, page, s, textInZone);
    if thrown {
      return;
    }
    next, fontError, thrown := VisitFonts(next, page, s, supported);
  }

  /** One iteration of the streaming loop: a page that failed to load only sets the parse flag. */
  method VisitEntry(st: StreamFlags, entry: Option<Page>, s: PrintSettings, textInZone: (Page, Rect) -> MarginProbe,
                    supported: seq<Font> -> bool)
    returns (next: StreamFlags, fontError: bool, thrown: bool)
    ensures thrown <==> StreamStep(st, entry, s, textInZone, supported).None?
    ensures !thrown ==> next == StreamStep(st, entry, s, textInZone, supported).value
    ensures !thrown ==> next.fontErrors == st.fontErrors + (if fontError then [ReferencesInvalidFont] else [])
  {
    match entry {
      case None =>
        next, fontError, thrown := st.(unparsablePages := true), false, false;
        assert st.fontErrors + [] == st.fontErrors;
      case Some(page) =>
        next, fontError, thrown := VisitPage(st, page, s, textInZone, supported);
    }
  }

  /** The margin test of one loaded page in the streaming loop. */
  method VisitMargin(st: StreamFlags, page: Page, s: PrintSettings, textInZone: (Page, Rect) -> MarginProbe)
    returns (next: StreamFlags, thrown: bool)
    ensures thrown <==> MarginPart(st, page, s, textInZone).None?
    ensures !thrown ==> MarginPart(st, page, s, textInZone) == Some(next) && next.fontErrors == st.fontErrors
  {
    next, thrown := st, false;
    if s.validateLeftMargin {
      if !next.insufficientMargin {
        match textInZone(page, FixedZone) {
          case TextFound =>
            next := next.(insufficientMargin := true);
          case Unverifiable =>
            next := next.(uncheckableMargins := true);
          case NoText =>
          case ReadError =>
            thrown := true;
        }
      }
    }
  }

  /** The font test of one loaded page in the streaming loop; `fontError` when it appended an error. */
  method VisitFonts(st: StreamFlags, page: Page, s: PrintSettings, supported: seq<Font> -> bool)
    returns (next: StreamFlags, fontError: bool, thrown: bool)
    ensures thrown <==> FontPart(st, page, s, supported).None?
    ensures !thrown ==> FontPart(st, page, s, supported) == Some(next)
    ensures !thrown ==> next.fontErrors == st.fontErrors + (if fontError then [ReferencesInvalidFont] else [])
  {
    next, fontError, thrown := st, false, false;
    if s.validateFonts {
      var fonts, failed := GetPageFonts(page.resources);
      if failed {
        thrown := true;
        return;
      }
      assert PageFontErrors(fonts, Rejects(supported)) == if supported(fonts) then [] else [ReferencesInvalidFont];
      if !supported(fonts) {
        fontError := true;
        next := next.(fontErrors := next.fontErrors + [ReferencesInvalidFont]);
      } else {
        assert next.fontErrors + [] == next.fontErrors;
      }
    } else {
      assert st.fontErrors + [] == st.fontErrors;
    }
  }



  /**
   * validerStreamForPrint: the streaming loop. The four accumulators (invalid dimensions,
   * unverifiable margin, insufficient margin, unparsable pages) are the flags of `st`.
   */
  method ValidateStream(doc: StreamDocument, s: PrintSettings, textInZone: (Page, Rect) -> MarginProbe,
                        supported: seq<Font> -> bool)
    returns (errors: seq<ValidationError>, thrown: bool)
    ensures thrown <==> StreamErrors(doc, s, textInZone, supported).None?
    ensures !thrown ==> errors == StreamErrors(doc, s, textInZone, supported).value
  {
    if doc.encrypted {
      return [PdfIsEncrypted], false;
    }
    var head := CheckCountAndVersion(|doc.pages|, doc.version, s, []);
    assert head == CountAndVersionErrors(|doc.pages|, doc.version, s);
    var st;
    st, errors, thrown := VisitPages(doc.pages, s, textInZone, supported, head);
    if !thrown {
      errors := AppendTail(st, errors);
      StreamErrorsOf(doc, st, s, textInZone, supported);
    }
  }

  /** The page loop of validerStreamForPrint, from all accumulators off. */
  method VisitPages(pages: seq<Option<Page>>, s: PrintSettings, textInZone: (Page, Rect) -> MarginProbe,
                    supported: seq<Font> -> bool, errors0: seq<ValidationError>)
    returns (st: StreamFlags, errors: seq<ValidationError>, thrown: bool)
    ensures thrown <==> StreamFold(pages, s, textInZone, supported).None?
    ensures !thrown ==> StreamFold(pages, s, textInZone, supported) == Some(st) && errors == errors0 + st.fontErrors
  {
    st, errors, thrown := StreamFlags(false, false, false, false, []), errors0, false;
    var i := 0;
    while i < |pages|
      invariant 0 <= i <= |pages|
      invariant errors == errors0 + st.fontErrors
      invariant StreamFold(pages[..i], s, textInZone, supported) == Some(st)
    {
      StreamFoldSnoc(pages, i, st, s, textInZone, supported);
      var fontError;
      st, fontError, thrown := VisitEntry(st, pages[i], s, textInZone, supported);
      if thrown {
        StreamFoldStopsAt(pages, i + 1, s, textInZone, supported);
        return;
      }
      if fontError {
        errors := errors + [ReferencesInvalidFont];
      }
      i := i + 1;
    }
    assert pages[..i] == pages;
  }

  /** One more page of the streaming loop is one more StreamStep. */
  lemma StreamFoldSnoc(pages: seq<Option<Page>>, i: nat, st: StreamFlags, s: PrintSettings,
                       textInZone: (Page, Rect) -> MarginProbe, supported: seq<Font> -> bool)
    requires i < |pages|
    requires StreamFold(pages[..i], s, textInZone, supported) == Some(st)
    ensures StreamFold(pages[..i + 1], s, textInZone, supported) == StreamStep(st, pages[i], s, textInZone, supported)
  {
    assert pages[..i + 1][..i] == pages[..i];
  }

  /** The result of validerStreamForPrint once the loop has finished with `st`. */
  lemma StreamErrorsOf(doc: StreamDocument, st: StreamFlags, s: PrintSettings,
                       textInZone: (Page, Rect) -> MarginProbe, supported: seq<Font> -> bool)
    requires !doc.encrypted
    requires StreamFold(doc.pages, s, textInZone, supported) == Some(st)
    ensures StreamErrors(doc, s, textInZone, supported)
      == Some(CountAndVersionErrors(|doc.pages|, doc.version, s) + st.fontErrors + TailErrors(st))
  {
  }

  /** The four appends after the streaming loop. */
  method AppendTail(st: StreamFlags, errors0: seq<ValidationError>) returns (errors: seq<ValidationError>)
    ensures errors == errors0 + TailErrors(st)
  {
    errors := errors0;
    if st.invalidDimensions {
      errors := errors + [UnsupportedDimensions];
    }
    if st.insufficientMargin {
      errors := errors + [InsufficientMarginForPrint];
    }
    if st.unparsablePages {
      errors := errors + [PdfParsePageError];
    }
    if st.uncheckableMargins {
      errors := errors + [UnableToVerifySuitableMarginForPrint];
    }
  }

  /**
   * The private validerForPrint reading the whole document into memory: every exception, from
   * loading, the checks or closing, appends PDF_PARSE_ERROR to the list as it stands. A check
   * that throws never hands its list back, so the parse error is all that is reported; a close
   * that fails comes after the checks, so their errors stay. A refused password is just another
   * load failure here. The page count is known once loaded.
   */
  function InMemoryForPrint(load: Load<Document>, s: PrintSettings, textInZone: (Page, Rect) -> MarginProbe,
                            supported: seq<Font> -> bool): Outcome {
    match load
    case Loaded(doc, closeFails) =>
      var checked := DocumentErrors(doc, s, textInZone, supported);
      if checked.None? then Outcome([PdfParseError], doc.pageCount)
      else Outcome(checked.value + (if closeFails then [PdfParseError] else []), doc.pageCount)
    case WrongPassword => Outcome([PdfParseError], -1)
    case ParseFailure => Outcome([PdfParseError], -1)
  }

  /** The same entry point with the streaming strategy; the page count is the parser's. */
  function StreamForPrint(load: Load<StreamDocument>, s: PrintSettings, textInZone: (Page, Rect) -> MarginProbe,
                          supported: seq<Font> -> bool): Outcome {
    match load
    case Loaded(doc, closeFails) =>
      var checked := StreamErrors(doc, s, textInZone, supported);
      if checked.None? then Outcome([PdfParseError], |doc.pages|)
      else Outcome(checked.value + (if closeFails then [PdfParseError] else []), |doc.pages|)
    case WrongPassword => Outcome([PdfParseError], -1)
    case ParseFailure => Outcome([PdfParseError], -1)
  }

  /**
   * validerForPrint, both public overloads: the document is read into memory. The older error
   * type's classification sets and texts are handed to the result.
   */
  method ValiderForPrint(load: Load<Document>, s: PrintSettings, textInZone: (Page, Rect) -> MarginProbe,
                         supported: seq<Font> -> bool, okForPrintSet: set<ValidationError>,
                         okForWebSet: set<ValidationError>, describe: ValidationError -> string)
    returns (result: LegacyValidationResult)
    ensures fresh(result) && result.Valid()
    ensures result.errors == InMemoryForPrint(load, s, textInZone, supported).errors
    ensures result.pageCount == InMemoryForPrint(load, s, textInZone, supported).numberOfPages
    ensures result.okForPrintSet == okForPrintSet && result.okForWebSet == okForWebSet && result.describe == describe
  {
    var pageCount := -1;
    var errors: seq<ValidationError> := [];
    match load {
      case Loaded(doc, closeFails) =>
        pageCount := doc.pageCount;
        var checked, thrown := ValidateDocument(doc, s, textInZone, supported);
        if !thrown {
          errors := checked;
        }
        if thrown || closeFails {
          errors := errors + [PdfParseError];
        }
      case WrongPassword =>
        errors := errors + [PdfParseError];
      case ParseFailure =>
        errors := errors + [PdfParseError];
    }
    result := new LegacyValidationResult(Some(errors), pageCount, okForPrintSet, okForWebSet, describe);
  }

  /** The private validerForPrint with the streaming strategy, which no public entry point selects. */
  method ValiderStreamForPrint(load: Load<StreamDocument>, s: PrintSettings, textInZone: (Page, Rect) -> MarginProbe,
                               supported: seq<Font> -> bool, okForPrintSet: set<ValidationError>,
                               okForWebSet: set<ValidationError>, describe: ValidationError -> string)
    returns (result: LegacyValidationResult)
    ensures fresh(result) && result.Valid()
    ensures result.errors == StreamForPrint(load, s, textInZone, supported).errors
    ensures result.pageCount == StreamForPrint(load, s, textInZone, supported).numberOfPages
    ensures result.okForPrintSet == okForPrintSet && result.okForWebSet == okForWebSet && result.describe == describe
  {
    var pageCount := -1;
    var errors: seq<ValidationError> := [];
    match load {
      case Loaded(doc, closeFails) =>
        pageCount := |doc.pages|;
        var checked, thrown := ValidateStream(doc, s, textInZone, supported);
        if !thrown {
          errors := checked;
        }
        if thrown || closeFails {
          errors := errors + [PdfParseError];
        }
      case WrongPassword =>
        errors := errors + [PdfParseError];
      case ParseFailure =>
        errors := errors + [PdfParseError];
    }
    result := new LegacyValidationResult(Some(errors), pageCount, okForPrintSet, okForWebSet, describe);
  }

  /**
   * The errors of a document checked without an exception: the head checks, the margin errors,
   * and REFERENCES_INVALID_FONT once per page whose fonts are not accepted, when that check is on.
   */
  lemma DocumentErrorsParts(doc: Document, s: PrintSettings, textInZone: (Page, Rect) -> MarginProbe,
                            supported: seq<Font> -> bool)
    requires !doc.encrypted && DocumentErrors(doc, s, textInZone, supported).Some?
    ensures MarginOutcome(doc.pages, s, textInZone).Some? && FontOutcome(doc.pages, s, supported).Some?
    ensures DocumentErrors(doc, s, textInZone, supported).value == HeadErrors(doc, s)
      + MarginErrors(MarginOutcome(doc.pages, s, textInZone).value) + FontOutcome(doc.pages, s, supported).value
    ensures forall k | 0 <= k < |FontOutcome(doc.pages, s, supported).value| ::
      FontOutcome(doc.pages, s, supported).value[k] == ReferencesInvalidFont
    ensures |FontOutcome(doc.pages, s, supported).value| ==
      if s.validateFonts then RejectedPages(doc.pages, Rejects(supported)) else 0
  {
    FontErrorsSpec(doc.pages, Rejects(supported));
  }

  /** The head checks report only page-count, version and dimension errors, in check order. */
  lemma HeadErrorsKinds(doc: Document, s: PrintSettings)
    ensures forall k | 0 <= k < |HeadErrors(doc, s)| :: Validator.Rank(HeadErrors(doc, s)[k]) <= 3
    ensures Validator.InCheckOrder(HeadErrors(doc, s))
  {
  }

  /**
   * The checks report the same kinds as the newer engine's, in the same order, and each margin
   * kind at most once.
   */
  lemma CheckedKinds(doc: Document, s: PrintSettings, textInZone: (Page, Rect) -> MarginProbe,
                     supported: seq<Font> -> bool)
    requires DocumentErrors(doc, s, textInZone, supported).Some?
    ensures var errs := DocumentErrors(doc, s, textInZone, supported).value;
      && (forall k | 0 <= k < |errs| :: Validator.CheckKind(errs[k]))
      && Validator.InCheckOrder(errs)
  {
    if !doc.encrypted {
      DocumentErrorsParts(doc, s, textInZone, supported);
      HeadErrorsKinds(doc, s);
      Validator.AssembledFacts(HeadErrors(doc, s), MarginOutcome(doc.pages, s, textInZone).value,
                               FontOutcome(doc.pages, s, supported).value);
    }
  }

  /**
   * Through the public entry points every error is a check error or PDF_PARSE_ERROR, never
   * PDF_PARSE_PAGE_ERROR; PDF_PARSE_ERROR is reported exactly when loading failed (a refused
   * password included), the checks threw, or closing failed.
   */
  lemma ReportedKinds(load: Load<Document>, s: PrintSettings, textInZone: (Page, Rect) -> MarginProbe,
                      supported: seq<Font> -> bool)
    ensures var errs := InMemoryForPrint(load, s, textInZone, supported).errors;
      && (forall k | 0 <= k < |errs| :: Validator.CheckKind(errs[k]) || errs[k] == PdfParseError)
      && PdfParsePageError !in errs
      && (PdfParseError in errs <==>
            !load.Loaded? || DocumentErrors(load.doc, s, textInZone, supported).None? || load.closeFails)
  {
    if load.Loaded? {
      var checked := DocumentErrors(load.doc, s, textInZone, supported);
      if checked.Some? {
        CheckedKinds(load.doc, s, textInZone, supported);
        assert PdfParseError !in checked.value && PdfParsePageError !in checked.value;
      }
    }
  }

  /**
   * The head rules with the older constants: more than 12 pages, no pages, a version other than
   * 1.0 to 1.5, and a media box that is not exactly 210 by 297 mm on some page.
   */
  lemma HeadRules(doc: Document, s: PrintSettings, textInZone: (Page, Rect) -> MarginProbe, supported: seq<Font> -> bool)
    requires !doc.encrypted && DocumentErrors(doc, s, textInZone, supported).Some?
    ensures var errs := DocumentErrors(doc, s, textInZone, supported).value;
      && (TooManyPagesForAutomatedPrint in errs <==> s.validatePageCount && doc.pageCount > 12)
      && (DocumentHasNoPages in errs <==> s.validatePageCount && doc.pageCount == 0)
      && (UnsupportedPdfVersionForPrint in errs <==> s.validatePdfVersion && doc.version !in VersionsSupportedForPrint)
      && (UnsupportedDimensions in errs <==>
            exists k | 0 <= k < |doc.pages| :: HasWrongDimensions(doc.pages[k].mediaBox))
  {
    DocumentErrorsParts(doc, s, textInZone, supported);
    var head := HeadErrors(doc, s);
    var m := MarginOutcome(doc.pages, s, textInZone).value;
    var fonts := FontOutcome(doc.pages, s, supported).value;
    Validator.HeadKindOnlyInHead(head, m, fonts, TooManyPagesForAutomatedPrint);
    Validator.HeadKindOnlyInHead(head, m, fonts, DocumentHasNoPages);
    Validator.HeadKindOnlyInHead(head, m, fonts, UnsupportedPdfVersionForPrint);
    Validator.HeadKindOnlyInHead(head, m, fonts, UnsupportedDimensions);
    HeadMembership(doc, s);
  }

  /** Which kinds the legacy head checks add. */
  lemma HeadMembership(doc: Document, s: PrintSettings)
    ensures var head := HeadErrors(doc, s);
      && (TooManyPagesForAutomatedPrint in head <==> s.validatePageCount && doc.pageCount > 12)
      && (DocumentHasNoPages in head <==> s.validatePageCount && doc.pageCount == 0)
      && (UnsupportedPdfVersionForPrint in head <==> s.validatePdfVersion && doc.version !in VersionsSupportedForPrint)
      && (UnsupportedDimensions in head <==>
            exists k | 0 <= k < |doc.pages| :: HasWrongDimensions(doc.pages[k].mediaBox))
  {
    if exists k | 0 <= k < |doc.pages| :: HasWrongDimensions(doc.pages[k].mediaBox) {
      var k :| 0 <= k < |doc.pages| && HasWrongDimensions(doc.pages[k].mediaBox);
      assert InvalidMediaBox(doc.pages[k]);
    }
  }


  /**
   * With the margin check on, INSUFFICIENT_MARGIN appears exactly when some page has text in the
   * fixed zone, and UNABLE_TO_VERIFY exactly when some page before the first such page could
   * not be checked; with it off, neither appears. Each appears at most once.
   */
  lemma MarginRule(doc: Document, s: PrintSettings, textInZone: (Page, Rect) -> MarginProbe, supported: seq<Font> -> bool)
    requires !doc.encrypted && DocumentErrors(doc, s, textInZone, supported).Some?
    ensures var errs := DocumentErrors(doc, s, textInZone, supported).value;
      var probes := Probes(doc.pages, FixedZoneOf, textInZone);
      && (InsufficientMarginForPrint in errs <==> s.validateLeftMargin && TextFound in probes)
      && (UnableToVerifySuitableMarginForPrint in errs <==>
            (s.validateLeftMargin &&
             exists j | 0 <= j < |probes| :: probes[j] == Unverifiable && NoTextBefore(probes, j)))
      && multiset(errs)[InsufficientMarginForPrint] <= 1
      && multiset(errs)[UnableToVerifySuitableMarginForPrint] <= 1
  {
    DocumentErrorsParts(doc, s, textInZone, supported);
    HeadErrorsKinds(doc, s);
    Validator.AssembledFacts(HeadErrors(doc, s), MarginOutcome(doc.pages, s, textInZone).value,
                             FontOutcome(doc.pages, s, supported).value);
    if s.validateLeftMargin {
      MarginFoldSpec(Probes(doc.pages, FixedZoneOf, textInZone));
    }
  }

  /** REFERENCES_INVALID_FONT appears once per page whose fonts are not accepted, and never when the font check is off. */
  lemma FontRule(doc: Document, s: PrintSettings, textInZone: (Page, Rect) -> MarginProbe, supported: seq<Font> -> bool)
    requires !doc.encrypted && DocumentErrors(doc, s, textInZone, supported).Some?
    ensures multiset(DocumentErrors(doc, s, textInZone, supported).value)[ReferencesInvalidFont] ==
      if s.validateFonts then RejectedPages(doc.pages, Rejects(supported)) else 0
    ensures ReferencesInvalidFont in DocumentErrors(doc, s, textInZone, supported).value <==>
      s.validateFonts && exists k | 0 <= k < |doc.pages| :: PageRejected(doc.pages[k], Rejects(supported))
  {
    DocumentErrorsParts(doc, s, textInZone, supported);
    HeadErrorsKinds(doc, s);
    Validator.AssembledFacts(HeadErrors(doc, s), MarginOutcome(doc.pages, s, textInZone).value,
                             FontOutcome(doc.pages, s, supported).value);
    RejectedPagesPositive(doc.pages, Rejects(supported));
  }

  /**
   * In the streaming loop a page that fails to load is noted and skipped; the flag is set
   * exactly when some page failed to load, and only font errors are appended inside the loop.
   */
  lemma {:induction false} StreamFoldFlags(pages: seq<Option<Page>>, s: PrintSettings,
                                           textInZone: (Page, Rect) -> MarginProbe, supported: seq<Font> -> bool)
    requires StreamFold(pages, s, textInZone, supported).Some?
    ensures var st := StreamFold(pages, s, textInZone, supported).value;
      && (st.unparsablePages <==> exists k | 0 <= k < |pages| :: pages[k].None?)
      && (forall k | 0 <= k < |st.fontErrors| :: st.fontErrors[k] == ReferencesInvalidFont)
  {
    if pages != [] {
      var init := pages[..|pages| - 1];
      StreamFoldFlags(init, s, textInZone, supported);
      assert forall k | 0 <= k < |init| :: init[k] == pages[k];
    }
  }

  /**
   * PDF_PARSE_PAGE_ERROR appears, at most once, exactly when some page of an unencrypted
   * document failed to load; such pages never make the streaming path throw.
   */
  lemma UnparsablePagesReported(doc: StreamDocument, s: PrintSettings, textInZone: (Page, Rect) -> MarginProbe,
                                supported: seq<Font> -> bool)
    requires !doc.encrypted && StreamErrors(doc, s, textInZone, supported).Some?
    ensures PdfParsePageError in StreamErrors(doc, s, textInZone, supported).value <==>
      exists k | 0 <= k < |doc.pages| :: doc.pages[k].None?
    ensures multiset(StreamErrors(doc, s, textInZone, supported).value)[PdfParsePageError] <= 1
  {
    var st := StreamFold(doc.pages, s, textInZone, supported).value;
    StreamFoldFlags(doc.pages, s, textInZone, supported);
    StreamErrorsOf(doc, st, s, textInZone, supported);
    HeadHasNoParseError(|doc.pages|, doc.version, s);
    ParseErrorOnce(doc.pages, CountAndVersionErrors(|doc.pages|, doc.version, s), st,
                   StreamErrors(doc, s, textInZone, supported).value);
  }

  /** The checks before the loop report only the page count and the version. */
  lemma HeadHasNoParseError(pageCount: int, version: real, s: PrintSettings)
    ensures forall k | 0 <= k < |CountAndVersionErrors(pageCount, version, s)| ::
      CountAndVersionErrors(pageCount, version, s)[k] in {TooManyPagesForAutomatedPrint, DocumentHasNoPages, UnsupportedPdfVersionForPrint}
    ensures PdfParsePageError !in CountAndVersionErrors(pageCount, version, s)
  {
    var count := if s.validatePageCount then PageCountErrors(pageCount, MaxPagesForAutomatedPrint) else [];
    var versionErrors := if s.validatePdfVersion then VersionErrors(version, VersionsSupportedForPrint) else [];
    assert CountAndVersionErrors(pageCount, version, s) == count + versionErrors;
  }

  /** The result list after a loop that flagged exactly the pages that failed to load. */
  lemma ParseErrorOnce(pages: seq<Option<Page>>, head: seq<ValidationError>, st: StreamFlags,
                       errors: seq<ValidationError>)
    requires errors == head + st.fontErrors + TailErrors(st)
    requires PdfParsePageError !in head
    requires forall k | 0 <= k < |st.fontErrors| :: st.fontErrors[k] == ReferencesInvalidFont
    requires st.unparsablePages <==> exists k | 0 <= k < |pages| :: pages[k].None?
    ensures PdfParsePageError in errors <==> exists k | 0 <= k < |pages| :: pages[k].None?
    ensures multiset(errors)[PdfParsePageError] <= 1
  {
    TailCounts(head, st);
  }

  /** The unparsable-page error comes from the tail alone: once when flagged, else never. */
  lemma TailCounts(head: seq<ValidationError>, st: StreamFlags)
    requires PdfParsePageError !in head
    requires forall k | 0 <= k < |st.fontErrors| :: st.fontErrors[k] == ReferencesInvalidFont
    ensures multiset(head + st.fontErrors + TailErrors(st))[PdfParsePageError] == if st.unparsablePages then 1 else 0
    ensures PdfParsePageError in head + st.fontErrors + TailErrors(st) <==> st.unparsablePages
  {
    var all := head + st.fontErrors + TailErrors(st);
    assert PdfParsePageError !in st.fontErrors;
    assert multiset(all) == multiset(head) + multiset(st.fontErrors) + multiset(TailErrors(st));
    TailParseError(st);
    assert PdfParsePageError in all <==> multiset(all)[PdfParsePageError] > 0;
  }

  /** The four appends after the loop add PDF_PARSE_PAGE_ERROR once when flagged. */
  lemma TailParseError(st: StreamFlags)
    ensures multiset(TailErrors(st))[PdfParsePageError] == if st.unparsablePages then 1 else 0
  {
    var dims := if st.invalidDimensions then [UnsupportedDimensions] else [];
    var margin := if st.insufficientMargin then [InsufficientMarginForPrint] else [];
    var parse := if st.unparsablePages then [PdfParsePageError] else [];
    var uncheckable := if st.uncheckableMargins then [UnableToVerifySuitableMarginForPrint] else [];
    assert multiset(TailErrors(st)) == multiset(dims) + multiset(margin) + multiset(parse) + multiset(uncheckable);
  }

  /** Every page of an in-memory document, as the streaming parser would hand it over. */
  function Wrap(pages: seq<Page>): (r: seq<Option<Page>>)
    ensures |r| == |pages|
    ensures forall k | 0 <= k < |pages| :: r[k] == Some(pages[k])
  {
    seq(|pages|, k requires 0 <= k < |pages| => Some(pages[k]))
  }

  /** A document whose pages all load, read page by page. */
  function AsStream(doc: Document): StreamDocument {
    StreamDocument(doc.encrypted, doc.version, Wrap(doc.pages))
  }

  /** What the three in-memory loops arrive at, in the shape of the streaming loop's flags. */
  function InMemoryFlags(pages: seq<Page>, s: PrintSettings, textInZone: (Page, Rect) -> MarginProbe,
                         supported: seq<Font> -> bool): Option<StreamFlags> {
    match MarginOutcome(pages, s, textInZone)
    case None => None
    case Some(m) =>
      match FontOutcome(pages, s, supported)
      case None => None
      case Some(fontErrors) =>
        Some(StreamFlags(AnyInvalid(pages, InvalidMediaBox), m.unverifiable, m.insufficient, false, fontErrors))
  }

  /**
   * When every page loads, the single streaming loop reaches the same flags and the same font
   * errors as the three separate in-memory loops, and throws in the same cases.
   */
  lemma {:induction false} StreamFoldAllLoaded(pages: seq<Page>, s: PrintSettings,
                                               textInZone: (Page, Rect) -> MarginProbe, supported: seq<Font> -> bool)
    ensures StreamFold(Wrap(pages), s, textInZone, supported) == InMemoryFlags(pages, s, textInZone, supported)
  {
    if pages != [] {
      var n := |pages|;
      var init := pages[..n - 1];
      var last := pages[n - 1];
      StreamFoldAllLoaded(init, s, textInZone, supported);
      assert Wrap(pages)[..n - 1] == Wrap(init);
      assert Wrap(pages)[n - 1] == Some(last);
      assert StreamFold(Wrap(pages), s, textInZone, supported) ==
        match InMemoryFlags(init, s, textInZone, supported)
        case None => None
        case Some(st) => StreamStep(st, Some(last), s, textInZone, supported);
      MarginOutcomeSnoc(pages, s, textInZone);
      FontOutcomeSnoc(pages, s, supported);
      AnyInvalidSnoc(pages);
    }
  }

  /** The in-memory margin loop over one more page. */
  lemma MarginOutcomeSnoc(pages: seq<Page>, s: PrintSettings, textInZone: (Page, Rect) -> MarginProbe)
    requires pages != []
    ensures var last := pages[|pages| - 1];
      MarginOutcome(pages, s, textInZone) ==
        match MarginOutcome(pages[..|pages| - 1], s, textInZone)
        case None => None
        case Some(m) =>
          if !s.validateLeftMargin || m.insufficient then Some(m)
          else match textInZone(last, FixedZone)
            case TextFound => Some(m.(insufficient := true))
            case NoText => Some(m)
            case Unverifiable => Some(m.(unverifiable := true))
            case ReadError => None
  {
    var n := |pages|;
    var probes := Probes(pages, FixedZoneOf, textInZone);
    assert probes[..n - 1] == Probes(pages[..n - 1], FixedZoneOf, textInZone);
    assert probes[n - 1] == textInZone(pages[n - 1], FixedZone);
  }

  /** The in-memory font loop over one more page. */
  lemma FontOutcomeSnoc(pages: seq<Page>, s: PrintSettings, supported: seq<Font> -> bool)
    requires pages != []
    ensures var last := pages[|pages| - 1];
      FontOutcome(pages, s, supported) ==
        match FontOutcome(pages[..|pages| - 1], s, supported)
        case None => None
        case Some(errors) =>
          if !s.validateFonts then Some(errors)
          else match PageFonts(last.resources)
            case None => None
            case Some(fonts) => Some(errors + PageFontErrors(fonts, Rejects(supported)))
  {
  }

  /** The dimension loop over one more page. */
  lemma AnyInvalidSnoc(pages: seq<Page>)
    requires pages != []
    ensures AnyInvalid(pages, InvalidMediaBox) ==
      (AnyInvalid(pages[..|pages| - 1], InvalidMediaBox) || HasWrongDimensions(pages[|pages| - 1].mediaBox))
  {
    var init := pages[..|pages| - 1];
    if AnyInvalid(init, InvalidMediaBox) {
      var k :| 0 <= k < |init| && InvalidMediaBox(init[k]);
      assert pages[k] == init[k];
    }
    assert InvalidMediaBox(pages[|pages| - 1]) == HasWrongDimensions(pages[|pages| - 1].mediaBox);
  }

  /**
   * For a document whose pages all load and whose page count is its number of pages, the two
   * strategies throw in the same cases and report the same errors, each as often, though not in
   * the same order.
   */
  lemma StreamMatchesInMemory(doc: Document, s: PrintSettings, textInZone: (Page, Rect) -> MarginProbe,
                              supported: seq<Font> -> bool)
    requires doc.pageCount == |doc.pages|
    ensures StreamErrors(AsStream(doc), s, textInZone, supported).None? <==> DocumentErrors(doc, s, textInZone, supported).None?
    ensures DocumentErrors(doc, s, textInZone, supported).Some? ==>
      multiset(StreamErrors(AsStream(doc), s, textInZone, supported).value) == multiset(DocumentErrors(doc, s, textInZone, supported).value)
  {
    StreamFoldAllLoaded(doc.pages, s, textInZone, supported);
    if !doc.encrypted && DocumentErrors(doc, s, textInZone, supported).Some? {
      var m := MarginOutcome(doc.pages, s, textInZone).value;
      var fontErrors := FontOutcome(doc.pages, s, supported).value;
      var st := StreamFlags(AnyInvalid(doc.pages, InvalidMediaBox), m.unverifiable, m.insufficient, false, fontErrors);
      var head := CountAndVersionErrors(doc.pageCount, doc.version, s);
      assert |AsStream(doc).pages| == doc.pageCount;
      StreamErrorsOf(AsStream(doc), st, s, textInZone, supported);
      assert StreamErrors(AsStream(doc), s, textInZone, supported).value == head + st.fontErrors + TailErrors(st);
      assert MarginFlags(st.uncheckableMargins, st.insufficientMargin) == m;
      assert DocumentErrors(doc, s, textInZone, supported).value ==
        head + (if st.invalidDimensions then [UnsupportedDimensions] else []) + MarginErrors(m) + st.fontErrors;
      Reordered(head, st);
    }
  }

  /** The streamed assembly is a reordering of the in-memory one. */
  lemma Reordered(head: seq<ValidationError>, st: StreamFlags)
    requires !st.unparsablePages
    ensures multiset(head + st.fontErrors + TailErrors(st)) ==
      multiset(head + (if st.invalidDimensions then [UnsupportedDimensions] else [])
        + MarginErrors(MarginFlags(st.uncheckableMargins, st.insufficientMargin)) + st.fontErrors)
  {
  }

  /**
   * A single page that is the wrong size and has no font resources, which the font predicate
   * does not accept, with only the font check switched on: in memory the dimension error comes
   * first, streamed the font error does.
   */
  lemma StreamOrderDiffers(textInZone: (Page, Rect) -> MarginProbe, supported: seq<Font> -> bool)
    requires !supported([])
    ensures var doc := Document(false, 1, 1.4, [Page(Size(100, 100), Size(100, 100), NoResources)]);
      var s := PrintSettings(false, true, false, false);
      && DocumentErrors(doc, s, textInZone, supported) == Some([UnsupportedDimensions, ReferencesInvalidFont])
      && StreamErrors(AsStream(doc), s, textInZone, supported) == Some([ReferencesInvalidFont, UnsupportedDimensions])
  {
    var page := Page(Size(100, 100), Size(100, 100), NoResources);
    var s := PrintSettings(false, true, false, false);
    var doc := Document(false, 1, 1.4, [page]);
    assert InvalidMediaBox([page][0]);
    assert HeadErrors(doc, s) == [UnsupportedDimensions];
    var pages := [page];
    var none: seq<ValidationError> := [];
    assert pages[..|pages| - 1] == [];
    assert FontErrorsBy(pages[..|pages| - 1], Rejects(supported)) == Some(none);
    assert none + PageFontErrors([], Rejects(supported)) == [ReferencesInvalidFont];
    assert FontErrorsBy(pages, Rejects(supported)) == Some([ReferencesInvalidFont]);
    assert Wrap([page]) == [Some(page)];
    assert [Some(page)][..0] == [];
    var st := StreamFlags(true, false, false, false, [ReferencesInvalidFont]);
    assert StreamFold([Some(page)], s, textInZone, supported) == Some(st);
    assert MarginOutcome(doc.pages, s, textInZone) == Some(MarginFlags(false, false));
    assert FontOutcome(doc.pages, s, supported) == Some([ReferencesInvalidFont]);
    assert MarginErrors(MarginFlags(false, false)) == none;
    assert DocumentErrors(doc, s, textInZone, supported) == Some([UnsupportedDimensions] + none + [ReferencesInvalidFont]);
    assert AsStream(doc).pages == [Some(page)];
    assert CountAndVersionErrors(1, 1.4, s) == none;
    assert TailErrors(st) == [UnsupportedDimensions];
    assert StreamErrors(AsStream(doc), s, textInZone, supported) == Some(none + [ReferencesInvalidFont] + [UnsupportedDimensions]);
    assert [UnsupportedDimensions] + none + [ReferencesInvalidFont] == [UnsupportedDimensions, ReferencesInvalidFont];
    assert none + [ReferencesInvalidFont] + [UnsupportedDimensions] == [ReferencesInvalidFont, UnsupportedDimensions];
  }
}
