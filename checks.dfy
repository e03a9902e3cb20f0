/**
 * Rule pieces that both rule engines use in the same way: the page-count and version
 * checks, the left-margin scan over the pages and the per-page font check.
 */
module Checks {
  import opened Optional
  import opened ValidationErrors
  import opened Fonts
  import opened Geometry
  import opened PdfModel

  /** validerSideantall: too many pages, then no pages, each added on its own condition. */
  function PageCountErrors(numberOfPages: int, maxPages: int): (r: seq<ValidationError>)
    ensures TooManyPagesForAutomatedPrint in r <==> numberOfPages > maxPages
    ensures DocumentHasNoPages in r <==> numberOfPages == 0
    ensures forall k | 0 <= k < |r| :: r[k] == TooManyPagesForAutomatedPrint || r[k] == DocumentHasNoPages
    ensures forall i, j | 0 <= i < j < |r| :: r[i] == TooManyPagesForAutomatedPrint && r[j] == DocumentHasNoPages
  {
    (if numberOfPages > maxPages then [TooManyPagesForAutomatedPrint] else [])
      + (if numberOfPages == 0 then [DocumentHasNoPages] else [])
  }

  /** validatePdfVersion: one error when the version is not in the supported list. */
  function VersionErrors(version: real, supported: seq<real>): (r: seq<ValidationError>)
    ensures r == [] || r == [UnsupportedPdfVersionForPrint]
    ensures r != [] <==> version !in supported
  {
    if version !in supported then [UnsupportedPdfVersionForPrint] else []
  }

  /** What the margin scan has found so far. */
  datatype MarginFlags = MarginFlags(unverifiable: bool, insufficient: bool)

  /**
   * The margin scan over the pages' probe answers, page by page: it stops looking once text
   * is found in the zone, records unverifiable pages met before that, and fails (None) on a
   * read error met before that.
   */
  function MarginFold(probes: seq<MarginProbe>): Option<MarginFlags> {
    if probes == [] then Some(MarginFlags(false, false))
    else match MarginFold(probes[..|probes| - 1])
      case None => None
      case Some(flags) =>
        if flags.insufficient then Some(flags)
        else match probes[|probes| - 1]
          case TextFound => Some(flags.(insufficient := true))
          case NoText => Some(flags)
          case Unverifiable => Some(flags.(unverifiable := true))
          case ReadError => None
  }

  /** No text was found in the zone of any page before index `j`. */
  predicate NoTextBefore(probes: seq<MarginProbe>, j: int)
    requires 0 <= j <= |probes|
  {
    forall k | 0 <= k < j :: probes[k] != TextFound
  }

  /**
   * The scan's outcome described without the loop: it fails exactly on a read error before
   * any text; otherwise the margin is insufficient exactly when some page has text, and
   * unverifiable exactly when some page before the first text could not be checked.
   */
  lemma MarginFoldSpec(probes: seq<MarginProbe>)
    ensures MarginFold(probes).None? <==>
      exists j | 0 <= j < |probes| :: probes[j] == ReadError && NoTextBefore(probes, j)
    ensures MarginFold(probes).Some? ==>
      (MarginFold(probes).value.insufficient <==> TextFound in probes)
    ensures MarginFold(probes).Some? ==>
      (MarginFold(probes).value.unverifiable <==>
        exists j | 0 <= j < |probes| :: probes[j] == Unverifiable && NoTextBefore(probes, j))
  {
    MarginFoldFails(probes);
    MarginFoldInsufficient(probes);
    MarginFoldUnverifiable(probes);
  }

  /** The scan stops on the first page whose zone cannot be read, unless text was found before it. */
  lemma {:induction false} MarginFoldFails(probes: seq<MarginProbe>)
    ensures MarginFold(probes).None? <==>
      exists j | 0 <= j < |probes| :: probes[j] == ReadError && NoTextBefore(probes, j)
  {
    if probes != [] {
      var n := |probes|;
      var init := probes[..n - 1];
      var last := probes[n - 1];
      MarginFoldFails(init);
      MarginFoldInsufficient(init);
      NoTextBeforeSnoc(probes);
      match MarginFold(init)
      case None =>
        var j :| 0 <= j < n - 1 && init[j] == ReadError && NoTextBefore(init, j);
        assert probes[j] == ReadError && NoTextBefore(probes, j);
      case Some(flags) =>
        if flags.insufficient {
          var t :| 0 <= t < n - 1 && init[t] == TextFound;
          assert !NoTextBefore(probes, n - 1) by { assert probes[t] == TextFound; }
        } else {
          assert NoTextBefore(probes, n - 1);
        }
    }
  }

  /** Text in the zone of any page is reported once the scan completes. */
  lemma {:induction false} MarginFoldInsufficient(probes: seq<MarginProbe>)
    ensures MarginFold(probes).Some? ==>
      (MarginFold(probes).value.insufficient <==> TextFound in probes)
  {
    if probes != [] {
      var n := |probes|;
      var init := probes[..n - 1];
      MarginFoldInsufficient(init);
      assert probes == init + [probes[n - 1]];
      assert TextFound in probes <==> TextFound in init || probes[n - 1] == TextFound;
    }
  }

  /** A zone that cannot be verified is reported when no text was found on an earlier page. */
  lemma {:induction false} MarginFoldUnverifiable(probes: seq<MarginProbe>)
    ensures MarginFold(probes).Some? ==>
      (MarginFold(probes).value.unverifiable <==>
        exists j | 0 <= j < |probes| :: probes[j] == Unverifiable && NoTextBefore(probes, j))
  {
    if probes != [] {
      var n := |probes|;
      var init := probes[..n - 1];
      MarginFoldUnverifiable(init);
      MarginFoldInsufficient(init);
      NoTextBeforeSnoc(probes);
      match MarginFold(init)
      case None =>
      case Some(flags) =>
        if flags.insufficient {
          var t :| 0 <= t < n - 1 && init[t] == TextFound;
          assert !NoTextBefore(probes, n - 1) by { assert probes[t] == TextFound; }
          if flags.unverifiable {
            var j :| 0 <= j < n - 1 && init[j] == Unverifiable && NoTextBefore(init, j);
            assert probes[j] == Unverifiable && NoTextBefore(probes, j);
          }
        } else {
          assert NoTextBefore(probes, n - 1);
          if flags.unverifiable {
            var j :| 0 <= j < n - 1 && init[j] == Unverifiable && NoTextBefore(init, j);
            assert probes[j] == Unverifiable && NoTextBefore(probes, j);
          }
        }
    }
  }

  /** Dropping the last page keeps what was seen before every earlier page. */
  lemma NoTextBeforeSnoc(probes: seq<MarginProbe>)
    requires probes != []
    ensures forall j | 0 <= j < |probes| - 1 ::
      NoTextBefore(probes, j) == NoTextBefore(probes[..|probes| - 1], j)
  {
    var init := probes[..|probes| - 1];
    forall j | 0 <= j < |probes| - 1 ensures NoTextBefore(probes, j) == NoTextBefore(init, j) {
      assert forall k | 0 <= k < j :: probes[k] == init[k];
    }
  }

  /** Once text has been found, later pages do not change the scan. */
  lemma {:induction false} MarginFoldSticky(probes: seq<MarginProbe>, i: nat)
    requires i <= |probes|
    requires MarginFold(probes[..i]).Some? && MarginFold(probes[..i]).value.insufficient
    ensures MarginFold(probes) == MarginFold(probes[..i])
    decreases |probes| - i
  {
    if i < |probes| {
      assert probes[..i + 1][..i] == probes[..i];
      MarginFoldSticky(probes, i + 1);
    } else {
      assert probes[..i] == probes;
    }
  }

  /** The font error of one page: one REFERENCES_INVALID_FONT when `rejects` holds of its fonts. */
  function PageFontErrors(fonts: seq<Font>, rejects: seq<Font> -> bool): seq<ValidationError> {
    if rejects(fonts) then [ReferencesInvalidFont] else []
  }

  /**
   * The font check over the pages, page by page: one error per rejected page; None when the
   * fonts of some page cannot be resolved.
   */
  function FontErrorsBy(pages: seq<Page>, rejects: seq<Font> -> bool): Option<seq<ValidationError>> {
    if pages == [] then Some([])
    else match FontErrorsBy(pages[..|pages| - 1], rejects)
      case None => None
      case Some(errors) =>
        match PageFonts(pages[|pages| - 1].resources)
        case None => None
        case Some(fonts) => Some(errors + PageFontErrors(fonts, rejects))
  }

  /** A page whose fonts resolve and are rejected. */
  predicate PageRejected(page: Page, rejects: seq<Font> -> bool) {
    PageFonts(page.resources).Some? && rejects(PageFonts(page.resources).value)
  }

  /** The number of rejected pages. */
  function RejectedPages(pages: seq<Page>, rejects: seq<Font> -> bool): nat {
    if pages == [] then 0
    else RejectedPages(pages[..|pages| - 1], rejects) + (if PageRejected(pages[|pages| - 1], rejects) then 1 else 0)
  }

  /**
   * The font check fails exactly when some page's fonts cannot be resolved; otherwise it
   * yields only REFERENCES_INVALID_FONT, once per rejected page.
   */
  lemma {:induction false} FontErrorsSpec(pages: seq<Page>, rejects: seq<Font> -> bool)
    ensures FontErrorsBy(pages, rejects).None? <==>
      exists k | 0 <= k < |pages| :: PageFonts(pages[k].resources).None?
    ensures FontErrorsBy(pages, rejects).Some? ==>
      var errors := FontErrorsBy(pages, rejects).value;
      |errors| == RejectedPages(pages, rejects) &&
      forall k | 0 <= k < |errors| :: errors[k] == ReferencesInvalidFont
  {
    if pages != [] {
      var init := pages[..|pages| - 1];
      FontErrorsSpec(init, rejects);
      assert forall k | 0 <= k < |init| :: init[k] == pages[k];
    }
  }

  /** Some page is rejected exactly when the count of rejected pages is positive. */
  lemma {:induction false} RejectedPagesPositive(pages: seq<Page>, rejects: seq<Font> -> bool)
    ensures RejectedPages(pages, rejects) > 0 <==>
      exists k | 0 <= k < |pages| :: PageRejected(pages[k], rejects)
  {
    if pages != [] {
      var init := pages[..|pages| - 1];
      RejectedPagesPositive(init, rejects);
      assert forall k | 0 <= k < |init| :: init[k] == pages[k];
    }
  }

  /** Some page fails the dimension test `invalid`. */
  predicate AnyInvalid(pages: seq<Page>, invalid: Page -> bool) {
    exists k | 0 <= k < |pages| :: invalid(pages[k])
  }

  /** The dimension loop: stops at the first page that fails `invalid`. */
  method ScanDimensions(pages: seq<Page>, invalid: Page -> bool) returns (documentHasInvalidDimensions: bool)
    ensures documentHasInvalidDimensions <==> AnyInvalid(pages, invalid)
  {
    documentHasInvalidDimensions := false;
    var i := 0;
    while i < |pages|
      invariant 0 <= i <= |pages|
      invariant !documentHasInvalidDimensions
      invariant forall k | 0 <= k < i :: !invalid(pages[k])
    {
      if invalid(pages[i]) {
        documentHasInvalidDimensions := true;
        break;
      }
      i := i + 1;
    }
  }

  /** The text extraction's answer for the zone `zoneOf` picks on each page, in page order. */
  function Probes(pages: seq<Page>, zoneOf: Page -> Rect, textInZone: (Page, Rect) -> MarginProbe): (r: seq<MarginProbe>)
    ensures |r| == |pages|
    ensures forall k | 0 <= k < |pages| :: r[k] == textInZone(pages[k], zoneOf(pages[k]))
  {
    seq(|pages|, k requires 0 <= k < |pages| => textInZone(pages[k], zoneOf(pages[k])))
  }

  /**
   * The margin loop: stops at the first page with text in its zone, notes pages whose zone
   * could not be checked, and throws on a read error.
   */
  method ScanMargins(pages: seq<Page>, zoneOf: Page -> Rect, textInZone: (Page, Rect) -> MarginProbe)
    returns (pagesWithUncheckableMargins: bool, hasTextInBarcodeArea: bool, thrown: bool)
    ensures var outcome := MarginFold(Probes(pages, zoneOf, textInZone));
      (thrown <==> outcome.None?) &&
      (!thrown ==> outcome.value == MarginFlags(pagesWithUncheckableMargins, hasTextInBarcodeArea))
  {
    hasTextInBarcodeArea, pagesWithUncheckableMargins, thrown := false, false, false;
    ghost var probes := Probes(pages, zoneOf, textInZone);
    var i := 0;
    while i < |pages|
      invariant 0 <= i <= |pages|
      invariant !hasTextInBarcodeArea
      invariant MarginFold(probes[..i]) == Some(MarginFlags(pagesWithUncheckableMargins, false))
    {
      assert probes[..i + 1][..i] == probes[..i];
      var probe := textInZone(pages[i], zoneOf(pages[i]));
      match probe {
        case TextFound =>
          hasTextInBarcodeArea := true;
          MarginFoldSticky(probes, i + 1);
          return;
        case Unverifiable =>
          pagesWithUncheckableMargins := true;
        case NoText =>
        case ReadError =>
          MarginFoldStopsAt(probes, i + 1);
          thrown := true;
          return;
      }
      i := i + 1;
    }
    assert probes[..i] == probes;
  }

  /** A read error in the margin scan, met before any text, ends the scan with a failure. */
  lemma MarginFoldStopsAt(probes: seq<MarginProbe>, i: nat)
    requires 0 < i <= |probes|
    requires MarginFold(probes[..i]).None?
    ensures MarginFold(probes).None?
  {
    MarginFoldSpec(probes[..i]);
    MarginFoldSpec(probes);
    var j :| 0 <= j < i && probes[..i][j] == ReadError && NoTextBefore(probes[..i], j);
    assert probes[j] == ReadError;
    assert NoTextBefore(probes, j) by {
      forall k | 0 <= k < j ensures probes[k] != TextFound {
        assert probes[..i][k] == probes[k];
      }
    }
  }

  /** The font check over one more page. */
  lemma FontErrorsSnoc(pages: seq<Page>, i: nat, rejects: seq<Font> -> bool, found: seq<ValidationError>)
    requires i < |pages|
    requires FontErrorsBy(pages[..i], rejects) == Some(found)
    ensures FontErrorsBy(pages[..i + 1], rejects) ==
      match PageFonts(pages[i].resources)
      case None => None
      case Some(fonts) => Some(found + PageFontErrors(fonts, rejects))
  {
    assert pages[..i + 1][..i] == pages[..i];
  }

  /** A page whose fonts cannot be resolved makes the whole font check fail. */
  lemma FontErrorsStopAt(pages: seq<Page>, i: nat, rejects: seq<Font> -> bool)
    requires 0 < i <= |pages|
    requires FontErrorsBy(pages[..i], rejects).None?
    ensures FontErrorsBy(pages, rejects).None?
  {
    FontErrorsSpec(pages[..i], rejects);
    FontErrorsSpec(pages, rejects);
    var k :| 0 <= k < i && PageFonts(pages[..i][k].resources).None?;
    assert pages[..i][k] == pages[k];
  }

  /** A list whose every element is `x` holds `x` as many times as it is long. */
  lemma {:induction false} UniformMultiset(xs: seq<ValidationError>, x: ValidationError)
    requires forall k | 0 <= k < |xs| :: xs[k] == x
    ensures multiset(xs)[x] == |xs|
  {
    if xs != [] {
      UniformMultiset(xs[1..], x);
      assert xs == [xs[0]] + xs[1..];
    }
  }

  /** UNABLE_TO_VERIFY before INSUFFICIENT_MARGIN, each on its flag. */
  function MarginErrors(m: MarginFlags): seq<ValidationError> {
    (if m.unverifiable then [UnableToVerifySuitableMarginForPrint] else [])
      + (if m.insufficient then [InsufficientMarginForPrint] else [])
  }

  /** What an entry point passes to the result: the errors and the page count (-1 when not loaded). */
  datatype Outcome = Outcome(errors: seq<ValidationError>, numberOfPages: int)
}
