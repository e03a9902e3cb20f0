/**
 * Where the older engine (PrintPdfValidator) and the current one (PdfValidator) part ways on
 * the same input: failures around loading, the fixed limits, and which page sizes pass.
 */
module EngineComparison {
  import opened ValidationErrors
  import opened Settings
  import opened Geometry
  import opened Fonts
  import opened PdfModel
  import opened Checks
  import Validator
  import LegacySettings
  import LegacyValidator

  /**
   * A close that fails after checks that succeeded: the current engine replaces the check
   * errors by the parse error, the older one keeps them and adds the parse error once, last.
   */
  lemma CloseFailureContrast(doc: Document, s: ValidationSettings, ls: LegacySettings.PrintSettings,
                             textInZone: (Page, Rect) -> MarginProbe, supported: seq<Font> -> bool)
    requires Validator.DocumentErrors(doc, s, textInZone).Some?
    requires LegacyValidator.DocumentErrors(doc, ls, textInZone, supported).Some?
    ensures Validator.ForPrint(Loaded(doc, true), s, textInZone).errors == [PdfParseError]
    ensures var checked := LegacyValidator.DocumentErrors(doc, ls, textInZone, supported).value;
      var errs := LegacyValidator.InMemoryForPrint(Loaded(doc, true), ls, textInZone, supported).errors;
      && errs == checked + [PdfParseError]
      && multiset(errs)[PdfParseError] == 1
  {
    var checked := LegacyValidator.DocumentErrors(doc, ls, textInZone, supported).value;
    LegacyValidator.CheckedKinds(doc, ls, textInZone, supported);
    assert PdfParseError !in checked;
  }

  /** A refused password: the current engine reports encryption, the older one a parse error. */
  lemma WrongPasswordContrast(s: ValidationSettings, ls: LegacySettings.PrintSettings,
                              textInZone: (Page, Rect) -> MarginProbe, supported: seq<Font> -> bool)
    ensures Validator.ForPrint(WrongPassword, s, textInZone) == Outcome([PdfIsEncrypted], -1)
    ensures LegacyValidator.InMemoryForPrint(WrongPassword, ls, textInZone, supported) == Outcome([PdfParseError], -1)
  {
  }

  /**
   * The older limits are stricter: 13 pages pass the standard limit of 14 but not the fixed 12,
   * and version 1.6 passes the current list but not the older 1.0 to 1.5.
   */
  lemma LimitsContrast()
    ensures PageCountErrors(13, StandardMaxPagesForAutomatedPrint) == []
    ensures PageCountErrors(13, LegacyValidator.MaxPagesForAutomatedPrint) == [TooManyPagesForAutomatedPrint]
    ensures VersionErrors(1.6, Validator.VersionsSupportedForPrint) == []
    ensures VersionErrors(1.6, LegacyValidator.VersionsSupportedForPrint) == [UnsupportedPdfVersionForPrint]
  {
    assert Validator.VersionsSupportedForPrint[6] == 1.6;
  }

  /**
   * Every size the older engine accepts, the current one accepts whatever the bleed; landscape
   * A4 is accepted only by the current one.
   */
  lemma SizeContrast(box: Size, bleed: Bleed)
    ensures !LegacyValidator.HasWrongDimensions(box) ==> !HasInvalidDimensions(box, bleed)
    ensures !HasInvalidDimensions(Size(A4HeightMm, A4WidthMm), bleed)
    ensures LegacyValidator.HasWrongDimensions(Size(A4HeightMm, A4WidthMm))
  {
  }
}
