/**
 * The rule engine (PdfValidator): loads a document, then applies encryption, page-count,
 * version, dimension, left-margin and font checks in that order, collecting errors.
 */
module Validator {
  import opened Optional
  import opened ValidationErrors
  import opened Settings
  import opened Geometry
  import opened Fonts
  import opened PdfModel
  import opened Checks
  import opened Results

  /** PDF_VERSIONS_SUPPORTED_FOR_PRINT: 1.0 up to 1.7. */
  const VersionsSupportedForPrint: seq<real> := [1.0, 1.1, 1.2, 1.3, 1.4, 1.5, 1.6, 1.7]

  /** A page's font set is rejected when some font on it is not supported. */
  predicate HasNonSupportedFont(fonts: seq<Font>) {
    NonSupported(fonts) != []
  }

  /** The dimension test of one page: its crop box is neither portrait nor landscape A4 within the bleed. */
  function InvalidDimensions(bleed: Bleed): Page -> bool {
    (page: Page) => HasInvalidDimensions(page.cropBox, bleed)
  }

  /** The silent zone of each page, placed by its crop box. */
  function ZoneOf(bleed: Bleed): Page -> Rect {
    (page: Page) => SilentZone(page.cropBox, bleed)
  }

  /** Some page's crop box is neither portrait nor landscape A4 within the bleed. */
  predicate AnyInvalidDimensions(pages: seq<Page>, bleed: Bleed) {
    AnyInvalid(pages, InvalidDimensions(bleed))
  }

  /** The text extraction's answer for the silent zone of each page, in page order. */
  function MarginProbes(pages: seq<Page>, bleed: Bleed, textInZone: (Page, Rect) -> MarginProbe): (r: seq<MarginProbe>)
    ensures |r| == |pages|
    ensures forall k | 0 <= k < |pages| :: r[k] == textInZone(pages[k], SilentZone(pages[k].cropBox, bleed))
  {
    Probes(pages, ZoneOf(bleed), textInZone)
  }

  /** Errors of the checks before the margin scan: page count, version, dimensions. */
  function HeadErrors(doc: Document, s: ValidationSettings): seq<ValidationError> {
    (if s.validateNumberOfPages then PageCountErrors(doc.pageCount, s.maxNumberOfPages) else [])
      + (if s.validatePdfVersion then VersionErrors(doc.version, VersionsSupportedForPrint) else [])
      + (if AnyInvalidDimensions(doc.pages, s.bleed) then [UnsupportedDimensions] else [])
  }

  /** The margin scan's outcome, or nothing found when the check is off. */
  function MarginOutcome(doc: Document, s: ValidationSettings, textInZone: (Page, Rect) -> MarginProbe): Option<MarginFlags> {
    if s.validateLeftMargin then MarginFold(MarginProbes(doc.pages, s.bleed, textInZone)) else Some(MarginFlags(false, false))
  }

  /** The font check's outcome, or no errors when the check is off. */
  function FontOutcome(doc: Document, s: ValidationSettings): Option<seq<ValidationError>> {
    if s.validateFonts then FontErrorsBy(doc.pages, HasNonSupportedFont) else Some([])
  }

  /**
   * What validateDocumentForPrint returns for a loaded document; None when it throws (a read
   * error in the margin scan before text was found, or a page whose fonts cannot be resolved).
   */
  function DocumentErrors(doc: Document, s: ValidationSettings, textInZone: (Page, Rect) -> MarginProbe): Option<seq<ValidationError>> {
    if doc.encrypted then Some([PdfIsEncrypted])
    else match MarginOutcome(doc, s, textInZone)
      case None => None
      case Some(m) =>
        match FontOutcome(doc, s)
        case None => None
        case Some(fontErrors) => Some(HeadErrors(doc, s) + MarginErrors(m) + fontErrors)
  }

  /** The font loop of validateDocumentForPrint: one error per page with a non-supported font. */
  method CheckFonts(pages: seq<Page>, errors0: seq<ValidationError>) returns (errors: seq<ValidationError>, thrown: bool)
    ensures var outcome := FontErrorsBy(pages, HasNonSupportedFont);
      (thrown <==> outcome.None?) && (!thrown ==> errors == errors0 + outcome.value)
  {
    errors, thrown := errors0, false;
    ghost var found: seq<ValidationError> := [];
    var i := 0;
    while i < |pages|
      invariant 0 <= i <= |pages|
      invariant FontErrorsBy(pages[..i], HasNonSupportedFont) == Some(found)
      invariant errors == errors0 + found
    {
      var fonts, failed := GetPageFonts(pages[i].resources);
      FontErrorsSnoc(pages, i, HasNonSupportedFont, found);
      if failed {
        FontErrorsStopAt(pages, i + 1, HasNonSupportedFont);
        thrown := true;
        return;
      }
      var nonSupportedFonts := FindNonSupportedFonts(fonts);
      if nonSupportedFonts != [] {
        errors := errors + [ReferencesInvalidFont];
      }
      found := found + PageFontErrors(fonts, HasNonSupportedFont);
      i := i + 1;
    }
    assert pages[..i] == pages;
  }

  /** The checks before the margin scan: page count, version, then the dimension loop. */
  method CheckHead(doc: Document, s: ValidationSettings) returns (errors: seq<ValidationError>)
    ensures errors == HeadErrors(doc, s)
  {
    errors := [];
    if s.validateNumberOfPages {
      if doc.pageCount > s.maxNumberOfPages {
        errors := errors + [TooManyPagesForAutomatedPrint];
      }
      if doc.pageCount == 0 {
        errors := errors + [DocumentHasNoPages];
      }
    }
    assert errors == (if s.validateNumberOfPages then PageCountErrors(doc.pageCount, s.maxNumberOfPages) else []);
    if s.validatePdfVersion {
      if doc.version !in VersionsSupportedForPrint {
        errors := errors + [UnsupportedPdfVersionForPrint];
      }
    }
    var documentHasInvalidDimensions := ScanDimensions(doc.pages, InvalidDimensions(s.bleed));
    if documentHasInvalidDimensions {
      errors := errors + [UnsupportedDimensions];
    }
  }

  /** The margin scan, when enabled, and the two margin errors it may add. */
  method CheckMargins(doc: Document, s: ValidationSettings, textInZone: (Page, Rect) -> MarginProbe,
                      errors0: seq<ValidationError>)
    returns (errors: seq<ValidationError>, thrown: bool)
    ensures thrown <==> MarginOutcome(doc, s, textInZone).None?
    ensures !thrown ==> errors == errors0 + MarginErrors(MarginOutcome(doc, s, textInZone).value)
  {
    errors, thrown := errors0, false;
    var hasTextInBarcodeArea := false;
    var documentContainsPagesWithInvalidPrintMargins := false;
    if s.validateLeftMargin {
      documentContainsPagesWithInvalidPrintMargins, hasTextInBarcodeArea, thrown :=
        ScanMargins(doc.pages, ZoneOf(s.bleed), textInZone);
      if thrown {
        return;
      }
    }
    if documentContainsPagesWithInvalidPrintMargins {
      errors := errors + [UnableToVerifySuitableMarginForPrint];
    }
    if hasTextInBarcodeArea {
      errors := errors + [InsufficientMarginForPrint];
    }
    assert MarginOutcome(doc, s, textInZone) ==
      Some(MarginFlags(documentContainsPagesWithInvalidPrintMargins, hasTextInBarcodeArea));
  }

  /** validateDocumentForPrint: the checks in source order; `thrown` when an exception escapes. */
  method ValidateDocumentForPrint(doc: Document, s: ValidationSettings, textInZone: (Page, Rect) -> MarginProbe)
    returns (errors: seq<ValidationError>, thrown: bool)
    ensures thrown <==> DocumentErrors(doc, s, textInZone).None?
    ensures !thrown ==> errors == DocumentErrors(doc, s, textInZone).value
  {
    errors, thrown := [], false;
    if doc.encrypted {
      errors := errors + [PdfIsEncrypted];
      return;
    }
    errors := CheckHead(doc, s);
    errors, thrown := CheckMargins(doc, s, textInZone, errors);
    if thrown {
      return;
    }
    ghost var flags := MarginOutcome(doc, s, textInZone).value;
    if s.validateFonts {
      errors, thrown := CheckFonts(doc.pages, errors);
    }
    DocumentErrorsAfterMargins(doc, s, textInZone, flags);
  }

  /** Once the margin scan has succeeded, the result hinges on the font check alone. */
  lemma DocumentErrorsAfterMargins(doc: Document, s: ValidationSettings, textInZone: (Page, Rect) -> MarginProbe, m: MarginFlags)
    requires !doc.encrypted
    requires MarginOutcome(doc, s, textInZone) == Some(m)
    ensures DocumentErrors(doc, s, textInZone) ==
      if FontOutcome(doc, s).None? then None else Some(HeadErrors(doc, s) + MarginErrors(m) + FontOutcome(doc, s).value)
  {
  }

  /**
   * validateForPrint: a password refusal reports encryption; any other load failure, an
   * exception during the checks or a failure to close the document reports a parse error
   * instead of the check errors; the page count is known once loaded.
   */
  function ForPrint(load: Load<Document>, s: ValidationSettings, textInZone: (Page, Rect) -> MarginProbe): Outcome {
    match load
    case Loaded(doc, closeFails) =>
      var checked := DocumentErrors(doc, s, textInZone);
      Outcome(if checked.None? || closeFails then [PdfParseError] else checked.value, doc.pageCount)
    case WrongPassword => Outcome([PdfIsEncrypted], -1)
    case ParseFailure => Outcome([PdfParseError], -1)
  }

  /** validateForPrint, producing the result object. */
  method ValidateForPrint(load: Load<Document>, s: ValidationSettings, textInZone: (Page, Rect) -> MarginProbe)
    returns (result: ValidationResult)
    ensures fresh(result) && result.Valid()
    ensures result.errors == ForPrint(load, s, textInZone).errors
    ensures result.pages == ForPrint(load, s, textInZone).numberOfPages
  {
    var numberOfPages := -1;
    var errors: seq<ValidationError>;
    match load {
      case Loaded(doc, closeFails) =>
        numberOfPages := doc.pageCount;
        var checked, thrown := ValidateDocumentForPrint(doc, s, textInZone);
        errors := if thrown || closeFails then [PdfParseError] else checked;
      case WrongPassword =>
        errors := [PdfIsEncrypted];
      case ParseFailure =>
        errors := [PdfParseError];
    }
    result := new ValidationResult(Some(errors), numberOfPages);
  }

  /** The kinds the checks themselves can report. */
  predicate CheckKind(e: ValidationError) {
    e in {PdfIsEncrypted, TooManyPagesForAutomatedPrint, DocumentHasNoPages, UnsupportedPdfVersionForPrint,
          UnsupportedDimensions, UnableToVerifySuitableMarginForPrint, InsufficientMarginForPrint, ReferencesInvalidFont}
  }

  /**
   * The errors of a document that was checked without an exception: the head checks, the
   * margin errors, and the font errors, which are REFERENCES_INVALID_FONT once per page
   * rejected when the font check is on.
   */
  lemma DocumentErrorsParts(doc: Document, s: ValidationSettings, textInZone: (Page, Rect) -> MarginProbe)
    requires !doc.encrypted && DocumentErrors(doc, s, textInZone).Some?
    ensures MarginOutcome(doc, s, textInZone).Some? && FontOutcome(doc, s).Some?
    ensures DocumentErrors(doc, s, textInZone).value ==
      HeadErrors(doc, s) + MarginErrors(MarginOutcome(doc, s, textInZone).value) + FontOutcome(doc, s).value
    ensures forall k | 0 <= k < |FontOutcome(doc, s).value| :: FontOutcome(doc, s).value[k] == ReferencesInvalidFont
    ensures |FontOutcome(doc, s).value| == if s.validateFonts then RejectedPages(doc.pages, HasNonSupportedFont) else 0
  {
    FontErrorsSpec(doc.pages, HasNonSupportedFont);
  }

  /** The checks report only the kinds listed in CheckKind. */
  lemma CheckedKinds(doc: Document, s: ValidationSettings, textInZone: (Page, Rect) -> MarginProbe)
    requires DocumentErrors(doc, s, textInZone).Some?
    ensures forall k | 0 <= k < |DocumentErrors(doc, s, textInZone).value| :: CheckKind(DocumentErrors(doc, s, textInZone).value[k])
  {
    if !doc.encrypted {
      DocumentErrorsParts(doc, s, textInZone);
      HeadErrorsKinds(doc, s);
      AssembledFacts(HeadErrors(doc, s), MarginOutcome(doc, s, textInZone).value, FontOutcome(doc, s).value);
    }
  }

  /**
   * Every reported error is a check error or PDF_PARSE_ERROR; PDF_PARSE_ERROR is reported
   * exactly when loading failed (other than by a password), the checks threw, or closing
   * failed; an empty list means a loaded, unencrypted document.
   */
  lemma ReportedKinds(load: Load<Document>, s: ValidationSettings, textInZone: (Page, Rect) -> MarginProbe)
    ensures forall k | 0 <= k < |ForPrint(load, s, textInZone).errors| ::
      CheckKind(ForPrint(load, s, textInZone).errors[k]) || ForPrint(load, s, textInZone).errors[k] == PdfParseError
    ensures PdfParseError in ForPrint(load, s, textInZone).errors <==>
      load.ParseFailure? || (load.Loaded? && (DocumentErrors(load.doc, s, textInZone).None? || load.closeFails))
    ensures ForPrint(load, s, textInZone).errors == [] ==> load.Loaded? && !load.doc.encrypted
  {
    if load.Loaded? {
      var checked := DocumentErrors(load.doc, s, textInZone);
      if checked.Some? {
        CheckedKinds(load.doc, s, textInZone);
        assert PdfParseError !in checked.value;
      }
    }
  }

  /** An encrypted document is reported as encrypted and nothing else, with its page count. */
  lemma EncryptedShortCircuits(doc: Document, s: ValidationSettings, textInZone: (Page, Rect) -> MarginProbe)
    requires doc.encrypted
    ensures ForPrint(Loaded(doc, false), s, textInZone) == Outcome([PdfIsEncrypted], doc.pageCount)
    ensures ForPrint(WrongPassword, s, textInZone).errors == ForPrint(Loaded(doc, false), s, textInZone).errors
  {
  }

  /**
   * The checks throw exactly when the margin check is on and a page's zone cannot be read
   * before text is found, or when the margin check succeeds, the font check is on and some
   * page's fonts cannot be resolved.
   */
  lemma ThrowsIff(doc: Document, s: ValidationSettings, textInZone: (Page, Rect) -> MarginProbe)
    requires !doc.encrypted
    ensures var probes := MarginProbes(doc.pages, s.bleed, textInZone);
      var marginThrows := s.validateLeftMargin &&
        exists j | 0 <= j < |probes| :: probes[j] == ReadError && NoTextBefore(probes, j);
      DocumentErrors(doc, s, textInZone).None? <==>
        marginThrows || (s.validateFonts && exists k | 0 <= k < |doc.pages| :: PageFonts(doc.pages[k].resources).None?)
  {
    MarginFoldSpec(MarginProbes(doc.pages, s.bleed, textInZone));
    FontErrorsSpec(doc.pages, HasNonSupportedFont);
  }

  /** The page-count errors appear exactly when that check is on and the count is over the limit, or zero. */
  lemma PageCountRule(doc: Document, s: ValidationSettings, textInZone: (Page, Rect) -> MarginProbe)
    requires !doc.encrypted && DocumentErrors(doc, s, textInZone).Some?
    ensures var errs := DocumentErrors(doc, s, textInZone).value;
      && (TooManyPagesForAutomatedPrint in errs <==> s.validateNumberOfPages && doc.pageCount > s.maxNumberOfPages)
      && (DocumentHasNoPages in errs <==> s.validateNumberOfPages && doc.pageCount == 0)
  {
    DocumentErrorsParts(doc, s, textInZone);
  }

  /** The version error appears exactly when that check is on and the version is not 1.0 to 1.7. */
  lemma VersionRule(doc: Document, s: ValidationSettings, textInZone: (Page, Rect) -> MarginProbe)
    requires !doc.encrypted && DocumentErrors(doc, s, textInZone).Some?
    ensures UnsupportedPdfVersionForPrint in DocumentErrors(doc, s, textInZone).value <==>
      s.validatePdfVersion && doc.version !in VersionsSupportedForPrint
  {
    DocumentErrorsParts(doc, s, textInZone);
  }

  /**
   * UNSUPPORTED_DIMENSIONS appears, at most once, exactly when some page is neither portrait
   * nor landscape A4 within the bleed; no setting switches this check off.
   */
  lemma DimensionRule(doc: Document, s: ValidationSettings, textInZone: (Page, Rect) -> MarginProbe)
    requires !doc.encrypted && DocumentErrors(doc, s, textInZone).Some?
    ensures UnsupportedDimensions in DocumentErrors(doc, s, textInZone).value <==> AnyInvalidDimensions(doc.pages, s.bleed)
    ensures multiset(DocumentErrors(doc, s, textInZone).value)[UnsupportedDimensions] <= 1
  {
    DocumentErrorsParts(doc, s, textInZone);
    var m := MarginOutcome(doc, s, textInZone).value;
    var fontErrors := FontOutcome(doc, s).value;
    MarginErrorsKinds(m);
    assert UnsupportedDimensions !in MarginErrors(m);
    assert UnsupportedDimensions !in fontErrors;
    OnlyInHead(HeadErrors(doc, s), MarginErrors(m), fontErrors, UnsupportedDimensions);
    HeadDimensionCount(doc, s);
  }

  /** The head checks add UNSUPPORTED_DIMENSIONS once when some page is not A4, and not otherwise. */
  lemma HeadDimensionCount(doc: Document, s: ValidationSettings)
    ensures multiset(HeadErrors(doc, s))[UnsupportedDimensions] == if AnyInvalidDimensions(doc.pages, s.bleed) then 1 else 0
  {
    var counts := (if s.validateNumberOfPages then PageCountErrors(doc.pageCount, s.maxNumberOfPages) else [])
      + (if s.validatePdfVersion then VersionErrors(doc.version, VersionsSupportedForPrint) else []);
    assert UnsupportedDimensions !in counts;
    assert HeadErrors(doc, s) == counts + (if AnyInvalidDimensions(doc.pages, s.bleed) then [UnsupportedDimensions] else []);
  }

  /** A kind the head checks report is in the assembled list exactly when it is in the head. */
  lemma HeadKindOnlyInHead(head: seq<ValidationError>, m: MarginFlags, fonts: seq<ValidationError>, e: ValidationError)
    requires Rank(e) <= 3
    requires forall k | 0 <= k < |fonts| :: fonts[k] == ReferencesInvalidFont
    ensures e in head + MarginErrors(m) + fonts <==> e in head
  {
    MarginErrorsKinds(m);
    assert e !in MarginErrors(m);
    assert e !in fonts;
    OnlyInHead(head, MarginErrors(m), fonts, e);
  }

  /** A kind missing from the later parts of a list occurs exactly as in its first part. */
  lemma OnlyInHead(head: seq<ValidationError>, mid: seq<ValidationError>, tail: seq<ValidationError>, e: ValidationError)
    requires e !in mid && e !in tail
    ensures e in head + mid + tail <==> e in head
    ensures multiset(head + mid + tail)[e] == multiset(head)[e]
  {
    assert multiset(head + mid + tail) == multiset(head) + multiset(mid) + multiset(tail);
  }

  /** The head checks report only page-count, version and dimension errors, in check order. */
  lemma HeadErrorsKinds(doc: Document, s: ValidationSettings)
    ensures forall k | 0 <= k < |HeadErrors(doc, s)| :: Rank(HeadErrors(doc, s)[k]) <= 3
    ensures InCheckOrder(HeadErrors(doc, s))
  {
  }

  /** The margin errors: at most one of each of the two kinds, in check order. */
  lemma MarginErrorsKinds(m: MarginFlags)
    ensures forall k | 0 <= k < |MarginErrors(m)| :: 4 <= Rank(MarginErrors(m)[k]) <= 5
    ensures InCheckOrder(MarginErrors(m))
    ensures multiset(MarginErrors(m))[InsufficientMarginForPrint] == if m.insufficient then 1 else 0
    ensures multiset(MarginErrors(m))[UnableToVerifySuitableMarginForPrint] == if m.unverifiable then 1 else 0
  {
  }

  /**
   * With the margin check on, INSUFFICIENT_MARGIN appears exactly when some page has text in
   * its silent zone, and UNABLE_TO_VERIFY exactly when some page before the first such page
   * could not be checked; with it off, neither appears. Each appears at most once.
   */
  lemma MarginRule(doc: Document, s: ValidationSettings, textInZone: (Page, Rect) -> MarginProbe)
    requires !doc.encrypted && DocumentErrors(doc, s, textInZone).Some?
    ensures var errs := DocumentErrors(doc, s, textInZone).value;
      var probes := MarginProbes(doc.pages, s.bleed, textInZone);
      && (InsufficientMarginForPrint in errs <==> s.validateLeftMargin && TextFound in probes)
      && (UnableToVerifySuitableMarginForPrint in errs <==>
            (s.validateLeftMargin &&
             exists j | 0 <= j < |probes| :: probes[j] == Unverifiable && NoTextBefore(probes, j)))
      && multiset(errs)[InsufficientMarginForPrint] <= 1
      && multiset(errs)[UnableToVerifySuitableMarginForPrint] <= 1
  {
    MarginErrorCounts(doc, s, textInZone);
    if s.validateLeftMargin {
      MarginFoldSpec(MarginProbes(doc.pages, s.bleed, textInZone));
    }
  }

  /** Each margin error kind appears once when its flag is set and not at all otherwise. */
  lemma MarginErrorCounts(doc: Document, s: ValidationSettings, textInZone: (Page, Rect) -> MarginProbe)
    requires !doc.encrypted && DocumentErrors(doc, s, textInZone).Some?
    ensures MarginOutcome(doc, s, textInZone).Some?
    ensures var errs := DocumentErrors(doc, s, textInZone).value;
      var m := MarginOutcome(doc, s, textInZone).value;
      && multiset(errs)[InsufficientMarginForPrint] == (if m.insufficient then 1 else 0)
      && multiset(errs)[UnableToVerifySuitableMarginForPrint] == (if m.unverifiable then 1 else 0)
  {
    DocumentErrorsParts(doc, s, textInZone);
    HeadErrorsKinds(doc, s);
    AssembledFacts(HeadErrors(doc, s), MarginOutcome(doc, s, textInZone).value, FontOutcome(doc, s).value);
  }

  /**
   * The assembled list: each margin kind as often as its flag says, the font error as often
   * as the font part is long, every kind one the checks report, all in check order.
   */
  lemma AssembledFacts(head: seq<ValidationError>, m: MarginFlags, fonts: seq<ValidationError>)
    requires forall k | 0 <= k < |head| :: Rank(head[k]) <= 3
    requires InCheckOrder(head)
    requires forall k | 0 <= k < |fonts| :: fonts[k] == ReferencesInvalidFont
    ensures var all := head + MarginErrors(m) + fonts;
      && multiset(all)[InsufficientMarginForPrint] == (if m.insufficient then 1 else 0)
      && multiset(all)[UnableToVerifySuitableMarginForPrint] == (if m.unverifiable then 1 else 0)
      && multiset(all)[ReferencesInvalidFont] == |fonts|
      && (forall k | 0 <= k < |all| :: CheckKind(all[k]))
      && InCheckOrder(all)
  {
    AssembledCounts(head, m, fonts);
    AssembledKinds(head, m, fonts);
  }

  /** How often each margin kind and the font error occur in the assembled list. */
  lemma AssembledCounts(head: seq<ValidationError>, m: MarginFlags, fonts: seq<ValidationError>)
    requires forall k | 0 <= k < |head| :: Rank(head[k]) <= 3
    requires forall k | 0 <= k < |fonts| :: fonts[k] == ReferencesInvalidFont
    ensures var all := head + MarginErrors(m) + fonts;
      && multiset(all)[InsufficientMarginForPrint] == (if m.insufficient then 1 else 0)
      && multiset(all)[UnableToVerifySuitableMarginForPrint] == (if m.unverifiable then 1 else 0)
      && multiset(all)[ReferencesInvalidFont] == |fonts|
  {
    MarginErrorsKinds(m);
    UniformMultiset(fonts, ReferencesInvalidFont);
    assert InsufficientMarginForPrint !in head && UnableToVerifySuitableMarginForPrint !in head;
    assert InsufficientMarginForPrint !in fonts && UnableToVerifySuitableMarginForPrint !in fonts;
    assert ReferencesInvalidFont !in head && ReferencesInvalidFont !in MarginErrors(m);
    assert multiset(head + MarginErrors(m) + fonts) == multiset(head) + multiset(MarginErrors(m)) + multiset(fonts);
  }

  /** The assembled list holds only check kinds, in check order. */
  lemma AssembledKinds(head: seq<ValidationError>, m: MarginFlags, fonts: seq<ValidationError>)
    requires forall k | 0 <= k < |head| :: Rank(head[k]) <= 3
    requires InCheckOrder(head)
    requires forall k | 0 <= k < |fonts| :: fonts[k] == ReferencesInvalidFont
    ensures var all := head + MarginErrors(m) + fonts;
      && (forall k | 0 <= k < |all| :: CheckKind(all[k]))
      && InCheckOrder(all)
  {
    MarginErrorsKinds(m);
    ConcatInCheckOrder(head, MarginErrors(m), 4);
    ConcatInCheckOrder(head + MarginErrors(m), fonts, 6);
    var all := head + MarginErrors(m) + fonts;
    forall k | 0 <= k < |all| ensures CheckKind(all[k]) {
      if k < |head| {
        assert all[k] == head[k];
      } else if k < |head| + |MarginErrors(m)| {
        assert all[k] == MarginErrors(m)[k - |head|];
      } else {
        assert all[k] == fonts[k - |head| - |MarginErrors(m)|];
      }
    }
  }

  /** REFERENCES_INVALID_FONT appears once per page with a non-supported font, and never when the font check is off. */
  lemma FontRule(doc: Document, s: ValidationSettings, textInZone: (Page, Rect) -> MarginProbe)
    requires !doc.encrypted && DocumentErrors(doc, s, textInZone).Some?
    ensures multiset(DocumentErrors(doc, s, textInZone).value)[ReferencesInvalidFont] ==
      if s.validateFonts then RejectedPages(doc.pages, HasNonSupportedFont) else 0
    ensures ReferencesInvalidFont in DocumentErrors(doc, s, textInZone).value <==>
      s.validateFonts && exists k | 0 <= k < |doc.pages| :: PageRejected(doc.pages[k], HasNonSupportedFont)
  {
    DocumentErrorsParts(doc, s, textInZone);
    HeadErrorsKinds(doc, s);
    AssembledFacts(HeadErrors(doc, s), MarginOutcome(doc, s, textInZone).value, FontOutcome(doc, s).value);
    RejectedPagesPositive(doc.pages, HasNonSupportedFont);
  }

  /** The position of each kind in the order the checks run. */
  function Rank(e: ValidationError): nat {
    match e
    case TooManyPagesForAutomatedPrint => 0
    case DocumentHasNoPages => 1
    case UnsupportedPdfVersionForPrint => 2
    case UnsupportedDimensions => 3
    case UnableToVerifySuitableMarginForPrint => 4
    case InsufficientMarginForPrint => 5
    case ReferencesInvalidFont => 6
    case _ => 7
  }

  /** Strictly in check order, except that font errors repeat, one per page. */
  predicate InCheckOrder(errs: seq<ValidationError>) {
    forall i, j | 0 <= i < j < |errs| ::
      Rank(errs[i]) < Rank(errs[j]) || (errs[i] == ReferencesInvalidFont && errs[j] == ReferencesInvalidFont)
  }

  /** Errors come out in the order the checks run, and no kind but the font error repeats. */
  lemma ErrorsInCheckOrder(doc: Document, s: ValidationSettings, textInZone: (Page, Rect) -> MarginProbe)
    requires DocumentErrors(doc, s, textInZone).Some?
    ensures InCheckOrder(DocumentErrors(doc, s, textInZone).value)
  {
    if !doc.encrypted {
      DocumentErrorsParts(doc, s, textInZone);
      HeadErrorsKinds(doc, s);
      AssembledFacts(HeadErrors(doc, s), MarginOutcome(doc, s, textInZone).value, FontOutcome(doc, s).value);
    }
  }

  /** Two lists in check order, the first ranked wholly below the second from `r` on, join in check order. */
  lemma ConcatInCheckOrder(a: seq<ValidationError>, b: seq<ValidationError>, r: nat)
    requires InCheckOrder(a) && InCheckOrder(b)
    requires forall k | 0 <= k < |a| :: Rank(a[k]) < r
    requires forall k | 0 <= k < |b| :: r <= Rank(b[k])
    ensures InCheckOrder(a + b)
  {
    forall i, j | 0 <= i < j < |a + b|
      ensures Rank((a + b)[i]) < Rank((a + b)[j]) ||
        ((a + b)[i] == ReferencesInvalidFont && (a + b)[j] == ReferencesInvalidFont)
    {
      if j < |a| {
        assert (a + b)[i] == a[i] && (a + b)[j] == a[j];
      } else if i < |a| {
        assert (a + b)[i] == a[i] && (a + b)[j] == b[j - |a|];
      } else {
        assert (a + b)[i] == b[i - |a|] && (a + b)[j] == b[j - |a|];
      }
    }
  }

  /** A document with no pages, under CHECK_ALL, gets DOCUMENT_HAS_NO_PAGES and nothing else. */
  lemma ZeroPagesReported(doc: Document, textInZone: (Page, Rect) -> MarginProbe)
    requires !doc.encrypted && doc.pageCount == 0 && doc.pages == []
    requires doc.version in VersionsSupportedForPrint
    ensures DocumentErrors(doc, CheckAll, textInZone) == Some([DocumentHasNoPages])
  {
    CheckAllEnablesEverything();
    assert MarginProbes(doc.pages, CheckAll.bleed, textInZone) == [];
    assert MarginOutcome(doc, CheckAll, textInZone) == Some(MarginFlags(false, false));
    assert FontOutcome(doc, CheckAll) == Some([]);
    assert HeadErrors(doc, CheckAll) == [DocumentHasNoPages];
    assert MarginErrors(MarginFlags(false, false)) == [];
    DocumentErrorsAfterMargins(doc, CheckAll, textInZone, MarginFlags(false, false));
    assert HeadErrors(doc, CheckAll) + MarginErrors(MarginFlags(false, false)) + [] == [DocumentHasNoPages];
  }

  /**
   * A document whose pages are all 220 by 307 mm passes the dimension check with 10 mm bleed
   * either way, and fails it with the default bleed.
   */
  lemma BleedWidensAcceptedSizes(doc: Document, textInZone: (Page, Rect) -> MarginProbe)
    requires !doc.encrypted && doc.pages != []
    requires forall k | 0 <= k < |doc.pages| :: doc.pages[k].cropBox == Size(220, 307)
    ensures var s := WithBleed(true, true, true, true, Bleed(10, 10));
      DocumentErrors(doc, s, textInZone).Some? ==> UnsupportedDimensions !in DocumentErrors(doc, s, textInZone).value
    ensures DocumentErrors(doc, CheckAll, textInZone).Some? ==> UnsupportedDimensions in DocumentErrors(doc, CheckAll, textInZone).value
  {
    var s := WithBleed(true, true, true, true, Bleed(10, 10));
    if DocumentErrors(doc, s, textInZone).Some? {
      DimensionRule(doc, s, textInZone);
    }
    if DocumentErrors(doc, CheckAll, textInZone).Some? {
      CheckAllEnablesEverything();
      DimensionRule(doc, CheckAll, textInZone);
      assert HasInvalidDimensions(doc.pages[0].cropBox, CheckAll.bleed);
    }
  }
}
