/** The settings of the older engine (PrintValideringsinnstillinger): four check flags, nothing else. */
module LegacySettings {

  /** Check the left margin, the fonts, the page count and the PDF version. */
  datatype PrintSettings = PrintSettings(
    validateLeftMargin: bool,
    validateFonts: bool,
    validatePageCount: bool,
    validatePdfVersion: bool)

  /** SJEKK_ALLE: every check on. */
  const CheckAll: PrintSettings := PrintSettings(true, true, true, true)

  /** The four-flag constructor keeps each flag in its own field, and SJEKK_ALLE sets all four. */
  lemma SettingsKeepFlags(leftMargin: bool, fonts: bool, pageCount: bool, version: bool)
    ensures var s := PrintSettings(leftMargin, fonts, pageCount, version);
      s.validateLeftMargin == leftMargin && s.validateFonts == fonts &&
      s.validatePageCount == pageCount && s.validatePdfVersion == version
    ensures CheckAll.validateLeftMargin && CheckAll.validateFonts && CheckAll.validatePageCount && CheckAll.validatePdfVersion
  {
  }
}
