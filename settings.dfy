/**
 * PdfValidationSettings: an immutable record of which checks run, the page limit and the
 * bleed tolerance. The three Java constructors delegate to the six-argument one, which is the
 * datatype constructor itself.
 */
module Settings {

  /** Tolerance in mm: `positive` widens the upper size bound, `negative` the lower one. */
  datatype Bleed = Bleed(positiveBleedInMm: nat, negativeBleedInMm: nat)

  datatype ValidationSettings = ValidationSettings(
    validateLeftMargin: bool,
    validateFonts: bool,
    validateNumberOfPages: bool,
    maxNumberOfPages: int,
    validatePdfVersion: bool,
    bleed: Bleed)

  const StandardMaxPagesForAutomatedPrint: int := 14
  const DefaultBleed: Bleed := Bleed(0, 0)

  /** The five-argument constructor: standard page limit, caller's bleed. */
  function WithBleed(validateLeftMargin: bool, validateFonts: bool, validateNumberOfPages: bool,
                     validatePdfVersion: bool, bleed: Bleed): (r: ValidationSettings)
    ensures r.maxNumberOfPages == 14 && r.bleed == bleed
    ensures r.validateLeftMargin == validateLeftMargin && r.validateFonts == validateFonts
    ensures r.validateNumberOfPages == validateNumberOfPages && r.validatePdfVersion == validatePdfVersion
  {
    ValidationSettings(validateLeftMargin, validateFonts, validateNumberOfPages,
                       StandardMaxPagesForAutomatedPrint, validatePdfVersion, bleed)
  }

  /** The four-argument constructor: standard page limit, default (zero) bleed. */
  function WithDefaults(validateLeftMargin: bool, validateFonts: bool, validateNumberOfPages: bool,
                        validatePdfVersion: bool): (r: ValidationSettings)
    ensures r.maxNumberOfPages == 14 && r.bleed == Bleed(0, 0)
    ensures r == WithBleed(validateLeftMargin, validateFonts, validateNumberOfPages, validatePdfVersion, DefaultBleed)
    ensures r.validateLeftMargin == validateLeftMargin && r.validateFonts == validateFonts
    ensures r.validateNumberOfPages == validateNumberOfPages && r.validatePdfVersion == validatePdfVersion
  {
    ValidationSettings(validateLeftMargin, validateFonts, validateNumberOfPages,
                       StandardMaxPagesForAutomatedPrint, validatePdfVersion, DefaultBleed)
  }

  /** CHECK_ALL: every check enabled, at most 14 pages, no bleed. */
  const CheckAll: ValidationSettings := WithDefaults(true, true, true, true)

  lemma CheckAllEnablesEverything()
    ensures CheckAll.validateLeftMargin && CheckAll.validateFonts
    ensures CheckAll.validateNumberOfPages && CheckAll.validatePdfVersion
    ensures CheckAll.maxNumberOfPages == 14 && CheckAll.bleed == Bleed(0, 0)
  {
  }
}
