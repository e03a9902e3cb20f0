# Print-suitability rule engine for PDF documents

This project models the rule engine that decides whether a PDF document is fit for automated
physical printing. There are two generations of it:

- The current engine (`PdfValidator`) runs its checks in a fixed order:
  1. an encryption short-circuit;
  2. page count;
  3. PDF version;
  4. page dimensions, which must be A4 in either orientation within a bleed tolerance;
  5. text in the barcode silent zone of the left margin;
  6. fonts.

  It collects the errors in a list and wraps them in a result. The result derives "OK for
  print" and "OK for web" from that list and renders it as text on demand.
- The older engine (`PrintPdfValidator`) differs in several ways:
  - it uses fixed constants and exact A4 on the media box;
  - its silent zone sits at a fixed position;
  - its result class computes its flags lazily and caches them;
  - it has a second, streaming page loop, which survives pages that fail to load and reports
    its errors in a different order.

PDFBox is not modelled. Everything it provides arrives as a plain value:
- a document is a `Document`: encrypted flag, page count, version, pages;
- a page has a crop box and a media box in whole millimetres, plus font resources whose lookup
  may fail;
- each page's text extraction in a rectangle is a parameter `textInZone` that answers with a
  `MarginProbe`:
  - `TextFound` or `NoText`;
  - `Unverifiable` (the `NullPointerException` case);
  - `ReadError` (an `IOException` that escapes).

An exception escaping the checks is modelled as `None` from the specification functions, or as
a `thrown` flag from the methods.

Modules, one per source file, plus shared helpers:

| module | file | models |
|---|---|---|
| `Optional`, `Text` | option.dfy, text.dfy | Option; substring search, decimal rendering |
| `ValidationErrors` | errors.dfy | the twelve error kinds, the OK sets, the messages, `%s` formatting |
| `Settings` | settings.dfy | validation settings, bleed, the constructors, CHECK_ALL |
| `Geometry` | geometry.dfy | A4 classification with bleed, mm-to-point conversion, the silent zone |
| `Fonts` | fonts.dfy | font acceptability, name normalisation, page fonts |
| `PdfModel` | pdf_model.dfy | pages, documents, load outcomes, margin probes |
| `Checks` | checks.dfy | the checks shared by both engines, as loops and as folds |
| `Results` | results.dfy | the current result object and its text form |
| `Validator` | validator.dfy | the current engine |
| `LegacySettings`, `LegacyResults`, `LegacyValidator` | legacy_*.dfy | the older engine, its settings and its result |
| `EngineComparison` | engines.dfy | where the two engines differ on the same input |

## Model

Source paths are relative to the repository root.

| member | source | states |
|---|---|---|
| ValidationErrors.ExactlyTwelveKinds | src/main/java/no/digipost/print/validate/PdfValidationError.java:24-41 | every kind is one of the twelve declared kinds, and the twelve are distinct |
| ValidationErrors.IsOkForPrint | src/main/java/no/digipost/print/validate/PdfValidationError.java:59-61 | no kind is OK for print, because OK_FOR_PRINT is empty |
| ValidationErrors.IsOkForWeb | src/main/java/no/digipost/print/validate/PdfValidationError.java:43-57 | a kind is OK for web exactly for encrypted, too many pages, version, insufficient margin, unverifiable margin, dimensions, and page parse error; the other five kinds are not |
| ValidationErrors.OkForPrintIffEmpty | src/main/java/no/digipost/print/validate/PdfValidationError.java:43 | a list is contained in OK_FOR_PRINT exactly when it is empty |
| ValidationErrors.ToString | src/main/java/no/digipost/print/validate/PdfValidationError.java:63-66 | toString yields the kind's message (`Message`, the table of the twelve texts); distinct kinds have distinct texts (via `MessagesDistinct`) |
| ValidationErrors.MessagesDistinct | src/main/java/no/digipost/print/validate/PdfValidationError.java:26-41 | no two kinds carry the same message text |
| ValidationErrors.MarginMessagesQuoteBarcodeWidth | src/main/java/no/digipost/print/validate/PdfValidationError.java:30-33 | both margin messages contain "15 mm", the barcode width |
| ValidationErrors.DimensionsTemplateFill | src/main/java/no/digipost/print/validate/PdfValidationError.java:36-37 | the dimensions template has four `%s` slots; filling it puts the four arguments in order between the fixed pieces |
| Settings.WithBleed | src/main/java/no/digipost/print/validate/PdfValidationSettings.java:30-32 | the five-argument constructor keeps the four flags and the bleed, with a page limit of 14 |
| Settings.WithDefaults | src/main/java/no/digipost/print/validate/PdfValidationSettings.java:34-36 | the four-argument constructor keeps the four flags, with a limit of 14 and zero bleed, and equals the five-argument one given the default bleed |
| Settings.CheckAllEnablesEverything | src/main/java/no/digipost/print/validate/PdfValidationSettings.java:47 | CHECK_ALL enables all four checks, with a limit of 14 pages and zero bleed |
| Geometry.PortraitBounds | src/main/java/no/digipost/print/validate/PdfValidator.java:229-240 | portrait A4 iff 210-neg ≤ width ≤ 210+pos and 297-neg ≤ height ≤ 297+pos, bounds inclusive; landscape is the same with width and height swapped |
| Geometry.BleedMonotone | src/main/java/no/digipost/print/validate/PdfValidator.java:213-240 | widening either bleed component never rejects a size that was accepted |
| Geometry.ZeroBleedIsExactA4 | src/main/java/no/digipost/print/validate/PdfValidator.java:213-240 | without bleed, exactly 210×297 and 297×210 are accepted |
| Geometry.MmToPointTenths | src/main/java/no/digipost/print/validate/PdfValidator.java:258-262 | the conversion to points at one decimal is rounded toward zero: never above the exact value in magnitude, and within one tenth of it |
| Geometry.MmToPointTenthsMonotone | src/main/java/no/digipost/print/validate/PdfValidator.java:258-262 | a longer length never converts to fewer points |
| Geometry.SilentZoneMm | src/main/java/no/digipost/print/validate/PdfValidator.java:268-316 | a page that is not landscape gets the zone at (0, 95) of size 15×80 mm; a landscape page gets it at x = 95, 80 wide and 15 high, ending at the page's far edge |
| Geometry.LandscapeZoneIsTransposed | src/main/java/no/digipost/print/validate/PdfValidator.java:285-315 | the landscape zone is the portrait zone with width and height exchanged, starting at the portrait y offset |
| Geometry.ZoneNotLargerThanExact | src/main/java/no/digipost/print/validate/PdfValidator.java:258-262 | the converted zone never exceeds the exact rectangle |
| Fonts.RemoveHyphens | src/main/java/no/digipost/print/validate/PdfFontValidator.java:107-108 | the result has no hyphen and is no longer than the input |
| Fonts.DeleteWhitespace | src/main/java/no/digipost/print/validate/PdfFontValidator.java:107-108 | the result has no whitespace and adds no hyphen |
| Fonts.UpperCase | src/main/java/no/digipost/print/validate/PdfFontValidator.java:107-108 | the result has the same length and no lower-case letter |
| Fonts.Normalise | src/main/java/no/digipost/print/validate/PdfFontValidator.java:107-108 | a normalised name has no hyphen, no whitespace and no lower-case letter |
| Fonts.NormaliseConcat | src/main/java/no/digipost/print/validate/PdfFontValidator.java:107-108 | normalising distributes over concatenation |
| Fonts.NormaliseIgnoresSeparator | src/main/java/no/digipost/print/validate/PdfFontValidator.java:107-108 | inserting a hyphen or a whitespace character does not change the normalised name |
| Fonts.NormaliseIgnoresCase | src/main/java/no/digipost/print/validate/PdfFontValidator.java:107-108 | lower-casing a name first does not change the normalised name |
| Fonts.IsAcceptableForPrint | src/main/java/no/digipost/print/validate/PdfFontValidator.java:103-114 | a missing (null) name is never acceptable |
| Fonts.AcceptableSuperstring | src/main/java/no/digipost/print/validate/PdfFontValidator.java:103-114 | any text around an acceptable name is still acceptable |
| Fonts.AcceptableIgnoresSeparatorsAndCase | src/main/java/no/digipost/print/validate/PdfFontValidator.java:103-114 | acceptability does not depend on hyphens, whitespace or letter case |
| Fonts.SupportedNamesAccepted | src/main/java/no/digipost/print/validate/PdfFontValidator.java:54-58 | each of TIMES, COURIER, HELVETICA, SYMBOL, ZAPFDINGBATS and ARIAL is accepted, in upper or lower case |
| Fonts.IsFontDescriptorAcceptableForPrint | src/main/java/no/digipost/print/validate/PdfFontValidator.java:95-101 | a descriptor with an embedded font file is acceptable; one without is acceptable iff its font name is |
| Fonts.IsSupported | src/main/java/no/digipost/print/validate/PdfFontValidator.java:72-93 | a damaged font is never supported; with a descriptor the descriptor decides; without one, supported iff Type0 or its name is acceptable |
| Fonts.NonSupportedMembers | src/main/java/no/digipost/print/validate/PdfFontValidator.java:72-93 | a font is in the result iff it is in the input and not supported |
| Fonts.NonSupportedConcat | src/main/java/no/digipost/print/validate/PdfFontValidator.java:72-93 | the result keeps input order: the result for a concatenation is the concatenation of the results |
| Fonts.NonSupportedEmptyIff | src/main/java/no/digipost/print/validate/PdfFontValidator.java:72-93 | the result is empty iff every font is supported |
| Fonts.FindNonSupportedFonts | src/main/java/no/digipost/print/validate/PdfFontValidator.java:72-93 | the loop returns exactly the rejected fonts, in input order |
| Fonts.ResolveFontsSpec | src/main/java/no/digipost/print/validate/PdfFontValidator.java:60-70 | resolution fails iff some entry fails to resolve; the fonts are duplicate-free, are exactly the resolved entries, and come in the order of their first entries, as the LinkedHashSet keeps them |
| Fonts.PageFonts | src/main/java/no/digipost/print/validate/PdfFontValidator.java:60-63 | a page without resources has no fonts |
| Fonts.GetPageFonts | src/main/java/no/digipost/print/validate/PdfFontValidator.java:60-70 | the loop fails exactly when resolution does; otherwise it returns the duplicate-free page fonts |
| Fonts.PageHasUnsupportedFont | src/main/java/no/digipost/print/validate/PdfFontValidator.java:60-93 | a page's fonts include a rejected one iff some resolved entry is not supported |
| Checks.PageCountErrors | src/main/java/no/digipost/print/validate/PdfValidator.java:193-202 | TOO_MANY_PAGES iff count > limit, NO_PAGES iff count = 0, nothing else, in that order |
| Checks.VersionErrors | src/main/java/no/digipost/print/validate/PdfValidator.java:185-191 | exactly one version error iff the version is not in the supported list, otherwise none |
| Checks.MarginFoldSpec | src/main/java/no/digipost/print/validate/PdfValidator.java:126-143 | the margin loop throws iff some page's zone cannot be read before text is found; it finds insufficient margin iff some page has text in its zone; it finds an unverifiable margin iff such a page comes before the first page with text |
| Checks.MarginFoldFails | src/main/java/no/digipost/print/validate/PdfValidator.java:126-143 | the margin loop throws iff some page's zone cannot be read while no earlier page had text in its zone |
| Checks.MarginFoldInsufficient | src/main/java/no/digipost/print/validate/PdfValidator.java:126-143 | when the margin loop completes, it reports insufficient margin iff some page has text in its zone |
| Checks.MarginFoldUnverifiable | src/main/java/no/digipost/print/validate/PdfValidator.java:126-143 | when the margin loop completes, it reports an unverifiable margin iff some page that could not be checked comes before the first page with text |
| Checks.MarginFoldSticky | src/main/java/no/digipost/print/validate/PdfValidator.java:129-134 | once text is found, later pages change nothing (the loop breaks) |
| Checks.FontErrorsSpec | src/main/java/no/digipost/print/validate/PdfValidator.java:145-149 | the font loop throws iff some page's fonts cannot be resolved; otherwise it yields one REFERENCES_INVALID_FONT per rejected page |
| Checks.RejectedPagesPositive | src/main/java/no/digipost/print/validate/PdfValidator.java:145-149 | the number of rejected pages is positive iff some page is rejected |
| Checks.ScanDimensions | src/main/java/no/digipost/print/validate/PdfValidator.java:116-122 | the break-on-first loop finds an invalid page iff one exists |
| Checks.Probes | src/main/java/no/digipost/print/validate/PdfValidator.java:204-211 | the text-extraction answer for each page's own zone, one per page, in page order |
| Checks.ScanMargins | src/main/java/no/digipost/print/validate/PdfValidator.java:126-140 | the margin loop throws, or sets its two flags, exactly as the margin fold says |
| Checks.MarginFoldStopsAt | src/main/java/no/digipost/print/validate/PdfValidator.java:126-143 | a read error met before any text fails the whole margin check, whatever the later pages hold |
| Checks.FontErrorsStopAt | src/main/java/no/digipost/print/validate/PdfValidator.java:145-149 | a page whose fonts cannot be resolved fails the whole font check |
| Checks.UniformMultiset | src/main/java/no/digipost/print/validate/PdfValidator.java:145-149 | a list of one repeated kind holds that kind as often as it is long |
| Results.RenderShape | src/main/java/no/digipost/print/validate/PdfValidationResult.java:46-62 | the text starts with "[" and the class name and ends with "]"; it is "[name]" for no errors and contains every error's message |
| Results.RenderAppend | src/main/java/no/digipost/print/validate/PdfValidationResult.java:52-56 | one more error adds one space and its message before the closing bracket |
| Results.JoinedMentionsEveryError | src/main/java/no/digipost/print/validate/PdfValidationResult.java:52-56 | the joined part contains the message of every error |
| Results.ValidationResult.constructor | src/main/java/no/digipost/print/validate/PdfValidationResult.java:33-38 | a null list becomes empty; OK for print iff there are no errors; OK for web iff every error is; the page count is kept |
| Results.ValidationResult.HasErrors | src/main/java/no/digipost/print/validate/PdfValidationResult.java:40-42 | true iff the list is non-empty, and so iff not OK for print |
| Results.ValidationResult.ToString | src/main/java/no/digipost/print/validate/PdfValidationResult.java:46-62 | the builder loop yields "[PdfValidationResult", then " " and a message per error, then "]", and caches it |
| Results.BuildText | src/main/java/no/digipost/print/validate/PdfValidationResult.java:51-59 | the builder loop yields "[", the class name, " " and a message per error in order, then "]" |
| Results.EverythingOk | src/main/java/no/digipost/print/validate/PdfValidationResult.java:25 | EVERYTHING_OK has no errors, page count -1, and is OK for print and for web |
| Results.DimensionsMessageQuotesBounds | src/test/java/no/digipost/print/validate/PrintPdfValidatorTest.java:95-105 | the dimensions message for a bleed quotes minWidth—maxWidth and minHeight—maxHeight |
| Results.DimensionsMessageForBleedTwoThree | src/test/java/no/digipost/print/validate/PrintPdfValidatorTest.java:84-90 | with bleed (2, 3) the message quotes 207—212 and 294—299 |
| Validator.ValidateDocumentForPrint | src/main/java/no/digipost/print/validate/PdfValidator.java:101-152 | the check sequence throws exactly when its specification is None, and otherwise returns its errors |
| Validator.CheckHead | src/main/java/no/digipost/print/validate/PdfValidator.java:108-124 | the page-count, version and dimension steps append exactly the head errors, in that order |
| Validator.CheckMargins | src/main/java/no/digipost/print/validate/PdfValidator.java:126-143 | the margin step throws iff the margin scan fails; otherwise it appends UNABLE_TO_VERIFY, then INSUFFICIENT_MARGIN, as the scan found |
| Validator.HeadDimensionCount | src/main/java/no/digipost/print/validate/PdfValidator.java:116-124 | the head steps add UNSUPPORTED_DIMENSIONS once when some page has invalid dimensions, and never otherwise |
| Validator.CheckFonts | src/main/java/no/digipost/print/validate/PdfValidator.java:145-149 | the font loop throws iff some page's fonts cannot be resolved; otherwise it appends one REFERENCES_INVALID_FONT per page with a non-supported font |
| Validator.MarginProbes | src/main/java/no/digipost/print/validate/PdfValidator.java:126-140 | each page is probed in its own silent zone, which depends on its crop box and the bleed, in page order |
| Validator.DocumentErrorsParts | src/main/java/no/digipost/print/validate/PdfValidator.java:101-152 | an unencrypted document's errors are the head errors, then the margin errors, then REFERENCES_INVALID_FONT once per rejected page when the font check is on |
| Validator.CheckedKinds | src/main/java/no/digipost/print/validate/PdfValidator.java:101-152 | the checks report only the eight check kinds, never a parse error |
| Validator.HeadErrorsKinds | src/main/java/no/digipost/print/validate/PdfValidator.java:104-124 | the first checks report only page-count, version and dimension errors, in that order |
| Validator.MarginErrorsKinds | src/main/java/no/digipost/print/validate/PdfValidator.java:138-143 | the margin step reports each margin kind once when its flag is set and not otherwise, unverifiable first |
| Validator.MarginErrorCounts | src/main/java/no/digipost/print/validate/PdfValidator.java:126-143 | in the whole list each margin kind appears once when the margin loop set its flag and not otherwise |
| Validator.ValidateForPrint | src/main/java/no/digipost/print/validate/PdfValidator.java:81-96 | the result holds the entry point's errors and page count |
| Validator.ReportedKinds | src/main/java/no/digipost/print/validate/PdfValidator.java:81-96 | every error is a check error or PDF_PARSE_ERROR; PDF_PARSE_ERROR iff loading failed, the checks threw, or closing failed; an empty list means a loaded, unencrypted document |
| Validator.EncryptedShortCircuits | src/main/java/no/digipost/print/validate/PdfValidator.java:86-88 | an encrypted document and a refused password both give [PDF_IS_ENCRYPTED] |
| Validator.ThrowsIff | src/main/java/no/digipost/print/validate/PdfValidator.java:126-149 | the checks throw iff a zone cannot be read before text is found, or some page's fonts cannot be resolved, each only when its check is on |
| Validator.PageCountRule | src/main/java/no/digipost/print/validate/PdfValidator.java:108-110 | page-count errors appear iff the check is on and the count exceeds the limit, or is zero |
| Validator.VersionRule | src/main/java/no/digipost/print/validate/PdfValidator.java:112-114 | the version error appears iff the check is on and the version is not 1.0 to 1.7 |
| Validator.DimensionRule | src/main/java/no/digipost/print/validate/PdfValidator.java:116-124 | UNSUPPORTED_DIMENSIONS appears, at most once, iff some page is not A4 within the bleed, whatever the settings |
| Validator.MarginRule | src/main/java/no/digipost/print/validate/PdfValidator.java:126-143 | with the margin check on, the margin errors follow the fold's conditions; with it off, neither appears; each appears at most once |
| Validator.FontRule | src/main/java/no/digipost/print/validate/PdfValidator.java:145-149 | REFERENCES_INVALID_FONT appears once per page with a non-supported font, never when the check is off |
| Validator.ErrorsInCheckOrder | src/main/java/no/digipost/print/validate/PdfValidator.java:101-152 | the errors come in check order: count, version, dimensions, unverifiable margin, insufficient margin, fonts |
| Validator.ZeroPagesReported | src/test/java/no/digipost/print/validate/PrintPdfValidatorTest.java:131-134 | an empty, unencrypted document with a supported version gives exactly [DOCUMENT_HAS_NO_PAGES] under CHECK_ALL |
| Validator.BleedWidensAcceptedSizes | src/test/java/no/digipost/print/validate/PrintPdfValidatorTest.java:166-179 | 220×307 mm pages pass the dimension check with bleed (10, 10) and fail it without bleed |
| LegacySettings.SettingsKeepFlags | src/main/java/no/digipost/print/validate/PrintValideringsinnstillinger.java:25-33 | the constructor keeps the four flags; SJEKK_ALLE enables all four |
| LegacyResults.LegacyValidationResult.constructor | src/main/java/no/digipost/print/validate/PdfValideringsResultat.java:29-36 | a null list becomes empty, otherwise the list is kept; the page count is kept; nothing is computed yet |
| LegacyResults.LegacyValidationResult.IsOkForPrint | src/main/java/no/digipost/print/validate/PdfValideringsResultat.java:42-47 | true iff every error is in the print set; computed once and cached |
| LegacyResults.LegacyValidationResult.IsOkForWeb | src/main/java/no/digipost/print/validate/PdfValideringsResultat.java:49-54 | true iff every error is in the web set; computed once and cached |
| LegacyResults.LegacyValidationResult.ToString | src/main/java/no/digipost/print/validate/PdfValideringsResultat.java:56-70 | "[PdfValideringsResultat", then " " and the text of each error, then "]", cached |
| LegacyValidator.CheckPageCount | src/main/java/no/digipost/print/validate/PrintPdfValidator.java:268-277 | appends the page-count errors for the fixed limit of 12 |
| LegacyValidator.CheckPdfVersion | src/main/java/no/digipost/print/validate/PrintPdfValidator.java:260-266 | appends the version error unless the version is 1.0 to 1.5 |
| LegacyValidator.CheckCountAndVersion | src/main/java/no/digipost/print/validate/PrintPdfValidator.java:188-195 | appends the page-count errors and then the version error, each only when its check is on |
| LegacyValidator.CheckFonts | src/main/java/no/digipost/print/validate/PrintPdfValidator.java:224-228 | the font loop throws iff some page's fonts cannot be resolved; otherwise it appends one error per page whose fonts are not accepted |
| LegacyValidator.ValidateDocument | src/main/java/no/digipost/print/validate/PrintPdfValidator.java:180-232 | the in-memory check sequence throws exactly when its specification is None, and otherwise returns its errors |
| LegacyValidator.CheckHead | src/main/java/no/digipost/print/validate/PrintPdfValidator.java:188-204 | the page-count, version and dimension steps append exactly the head errors, in that order |
| LegacyValidator.CheckMargins | src/main/java/no/digipost/print/validate/PrintPdfValidator.java:206-223 | the margin step throws iff the margin scan fails; otherwise it appends UNABLE_TO_VERIFY, then INSUFFICIENT_MARGIN, as the scan found |
| LegacyValidator.HeadMembership | src/main/java/no/digipost/print/validate/PrintPdfValidator.java:188-204 | the head contains TOO_MANY_PAGES, DOCUMENT_HAS_NO_PAGES, UNSUPPORTED_PDF_VERSION and UNSUPPORTED_DIMENSIONS each iff its check is on and fails |
| LegacyValidator.VisitPage | src/main/java/no/digipost/print/validate/PrintPdfValidator.java:135-160 | one loaded page of the streaming loop: the dimension test until one page fails it, the margin test until text is found, then the font test |
| LegacyValidator.ValidateStream | src/main/java/no/digipost/print/validate/PrintPdfValidator.java:107-175 | the streaming loop throws exactly when its fold is None, and otherwise returns count/version errors, then font errors, then DIM, INSUFFICIENT, PARSE_PAGE, UNABLE |
| LegacyValidator.VisitPages | src/main/java/no/digipost/print/validate/PrintPdfValidator.java:128-166 | the page loop throws iff the streaming fold is None; otherwise it ends in the fold's flags and has appended exactly their font errors |
| LegacyValidator.VisitEntry | src/main/java/no/digipost/print/validate/PrintPdfValidator.java:129-165 | one iteration: a page that fails to load only sets the unparsable flag; a loaded page takes one streaming step |
| LegacyValidator.VisitMargin | src/main/java/no/digipost/print/validate/PrintPdfValidator.java:143-155 | the margin part of one iteration throws iff its reader fails, and otherwise sets the margin flags as the streaming step does |
| LegacyValidator.VisitFonts | src/main/java/no/digipost/print/validate/PrintPdfValidator.java:157-159 | the font part of one iteration throws iff the page's fonts cannot be resolved, and otherwise appends an error iff they are not accepted |
| LegacyValidator.HeadHasNoParseError | src/main/java/no/digipost/print/validate/PrintPdfValidator.java:116-122 | the checks before the streaming loop add only page-count and version errors |
| LegacyValidator.AppendTail | src/main/java/no/digipost/print/validate/PrintPdfValidator.java:168-171 | appends the four flag errors in the streaming order |
| LegacyValidator.StreamFoldStopsAt | src/main/java/no/digipost/print/validate/PrintPdfValidator.java:126-166 | once a page throws, later pages do not matter |
| LegacyValidator.ValiderForPrint | src/main/java/no/digipost/print/validate/PrintPdfValidator.java:62-102 | both public entry points read the document into memory; the result holds the entry point's errors and page count |
| LegacyValidator.ValiderStreamForPrint | src/main/java/no/digipost/print/validate/PrintPdfValidator.java:76-102 | the streaming strategy of the private entry point, with the same wrapping of exceptions |
| LegacyValidator.DocumentErrorsParts | src/main/java/no/digipost/print/validate/PrintPdfValidator.java:180-232 | an unencrypted document's errors are the head errors, the margin errors, then REFERENCES_INVALID_FONT once per page whose fonts are not accepted when the font check is on |
| LegacyValidator.HeadErrorsKinds | src/main/java/no/digipost/print/validate/PrintPdfValidator.java:184-203 | the first checks report only page-count, version and dimension errors, in that order |
| LegacyValidator.CheckedKinds | src/main/java/no/digipost/print/validate/PrintPdfValidator.java:180-232 | the in-memory checks report only check kinds, in the same order as the current engine |
| LegacyValidator.ReportedKinds | src/main/java/no/digipost/print/validate/PrintPdfValidator.java:76-102 | through the public entry points there is never a PDF_PARSE_PAGE_ERROR; PDF_PARSE_ERROR appears iff loading failed (a refused password included), the checks threw, or closing failed |
| LegacyValidator.HeadRules | src/main/java/no/digipost/print/validate/PrintPdfValidator.java:188-203 | more than 12 pages and no pages give their errors iff the page-count check is on; a version other than 1.0 to 1.5 gives its error iff the version check is on; UNSUPPORTED_DIMENSIONS appears iff some page's media box is not exactly 210×297, whatever the settings |
| LegacyValidator.MarginRule | src/main/java/no/digipost/print/validate/PrintPdfValidator.java:205-223 | the fixed-position margin errors follow the fold's conditions, each at most once, and never when the check is off |
| LegacyValidator.FontRule | src/main/java/no/digipost/print/validate/PrintPdfValidator.java:224-228 | REFERENCES_INVALID_FONT appears once per page whose fonts are not accepted, never when the check is off |
| LegacyValidator.StreamFoldFlags | src/main/java/no/digipost/print/validate/PrintPdfValidator.java:126-166 | the unparsable flag is set iff some page failed to load; the loop appends only font errors |
| LegacyValidator.UnparsablePagesReported | src/main/java/no/digipost/print/validate/PrintPdfValidator.java:128-134 | PDF_PARSE_PAGE_ERROR appears, at most once, iff some page failed to load |
| LegacyValidator.StreamFoldAllLoaded | src/main/java/no/digipost/print/validate/PrintPdfValidator.java:107-232 | when every page loads, the streaming loop reaches the same flags and font errors as the three in-memory loops, and throws in the same cases |
| LegacyValidator.StreamMatchesInMemory | src/main/java/no/digipost/print/validate/PrintPdfValidator.java:107-232 | the two strategies throw in the same cases and report the same errors as a multiset |
| LegacyValidator.StreamOrderDiffers | src/main/java/no/digipost/print/validate/PrintPdfValidator.java:116-171 | a wrong-size page with rejected fonts gives [DIM, FONT] in memory and [FONT, DIM] when streamed |
| EngineComparison.CloseFailureContrast | src/main/java/no/digipost/print/validate/PrintPdfValidator.java:78-96 | a failing close replaces the check errors in the current engine but is appended after them in the older one |
| EngineComparison.WrongPasswordContrast | src/main/java/no/digipost/print/validate/PdfValidator.java:87-88 | a refused password is reported as encryption by the current engine and as a parse error by the older one |
| EngineComparison.LimitsContrast | src/main/java/no/digipost/print/validate/PrintPdfValidator.java:58-59 | 13 pages and version 1.6 pass the current engine's limits but not the older ones |
| EngineComparison.SizeContrast | src/main/java/no/digipost/print/validate/PrintPdfValidator.java:285-297 | every size the older engine accepts is accepted by the current one for any bleed; landscape A4 is accepted only by the current one |

## Definitions

The functions that define the source's operations as values, and the members whose contracts characterise them.

| definition | source | characterised by |
|---|---|---|
| Geometry.IsPortraitA4 | src/main/java/no/digipost/print/validate/PdfValidator.java:229-236 | Geometry.PortraitBounds, Geometry.BleedMonotone, Geometry.ZeroBleedIsExactA4 |
| Geometry.IsLandscapeA4 | src/main/java/no/digipost/print/validate/PdfValidator.java:238-240 | Geometry.PortraitBounds |
| Geometry.HasInvalidDimensions | src/main/java/no/digipost/print/validate/PdfValidator.java:213-227 | Geometry.ZeroBleedIsExactA4, Validator.BleedWidensAcceptedSizes, EngineComparison.SizeContrast |
| Geometry.SilentZone | src/main/java/no/digipost/print/validate/PdfValidator.java:268-316 | Geometry.SilentZoneMm, Geometry.LandscapeZoneIsTransposed, Geometry.ZoneNotLargerThanExact |
| ValidationErrors.Message | src/main/java/no/digipost/print/validate/PdfValidationError.java:26-41 | ValidationErrors.ToString, ValidationErrors.MessagesDistinct, ValidationErrors.MarginMessagesQuoteBarcodeWidth, ValidationErrors.DimensionsTemplateFill |
| Fonts.NonSupported | src/main/java/no/digipost/print/validate/PdfFontValidator.java:72-93 | Fonts.NonSupportedMembers, Fonts.NonSupportedConcat, Fonts.NonSupportedEmptyIff, Fonts.FindNonSupportedFonts |
| Fonts.ResolveFonts | src/main/java/no/digipost/print/validate/PdfFontValidator.java:60-70 | Fonts.ResolveFontsSpec, Fonts.GetPageFonts |
| Checks.MarginFold | src/main/java/no/digipost/print/validate/PdfValidator.java:126-143 | Checks.MarginFoldSpec, Checks.MarginFoldFails, Checks.MarginFoldInsufficient, Checks.MarginFoldUnverifiable, Checks.MarginFoldSticky, Checks.ScanMargins |
| Checks.FontErrorsBy | src/main/java/no/digipost/print/validate/PdfValidator.java:145-149 | Checks.FontErrorsSpec, Checks.FontErrorsStopAt, Validator.CheckFonts |
| Validator.DocumentErrors | src/main/java/no/digipost/print/validate/PdfValidator.java:101-152 | Validator.ValidateDocumentForPrint, Validator.DocumentErrorsParts, Validator.ThrowsIff, Validator.PageCountRule, Validator.VersionRule, Validator.DimensionRule, Validator.MarginRule, Validator.FontRule, Validator.ErrorsInCheckOrder |
| Validator.ForPrint | src/main/java/no/digipost/print/validate/PdfValidator.java:81-96 | Validator.ValidateForPrint, Validator.ReportedKinds, Validator.EncryptedShortCircuits |
| Results.Render | src/main/java/no/digipost/print/validate/PdfValidationResult.java:49-62 | Results.RenderShape, Results.RenderAppend, Results.JoinedMentionsEveryError, Results.BuildText |
| LegacyValidator.HasWrongDimensions | src/main/java/no/digipost/print/validate/PrintPdfValidator.java:285-296 | LegacyValidator.HeadRules, LegacyValidator.HeadMembership, EngineComparison.SizeContrast |
| LegacyValidator.DocumentErrors | src/main/java/no/digipost/print/validate/PrintPdfValidator.java:180-232 | LegacyValidator.ValidateDocument, LegacyValidator.DocumentErrorsParts, LegacyValidator.HeadRules, LegacyValidator.MarginRule, LegacyValidator.FontRule |
| LegacyValidator.StreamFold | src/main/java/no/digipost/print/validate/PrintPdfValidator.java:124-166 | LegacyValidator.VisitPages, LegacyValidator.StreamFoldFlags, LegacyValidator.StreamFoldStopsAt, LegacyValidator.StreamFoldAllLoaded |
| LegacyValidator.TailErrors | src/main/java/no/digipost/print/validate/PrintPdfValidator.java:168-171 | LegacyValidator.AppendTail, LegacyValidator.UnparsablePagesReported |
| LegacyValidator.StreamErrors | src/main/java/no/digipost/print/validate/PrintPdfValidator.java:107-175 | LegacyValidator.ValidateStream, LegacyValidator.UnparsablePagesReported, LegacyValidator.StreamMatchesInMemory, LegacyValidator.StreamOrderDiffers |
| LegacyValidator.InMemoryForPrint | src/main/java/no/digipost/print/validate/PrintPdfValidator.java:62-102 | LegacyValidator.ValiderForPrint, LegacyValidator.ReportedKinds, EngineComparison.CloseFailureContrast, EngineComparison.WrongPasswordContrast |
| LegacyValidator.StreamForPrint | src/main/java/no/digipost/print/validate/PrintPdfValidator.java:76-102 | LegacyValidator.ValiderStreamForPrint |

## Left out

- PDF loading, PDFBox page and resource access, and the non-sequential parser are not modelled. Their results are inputs: a `Load` outcome, the pages, a `PageResources` value that may fail to resolve, and a failure to close.
- Text extraction in a region (`hasTextInArea`, `harTekstIOmraade`) is not modelled. It is the parameter `textInZone`, whose answers are text found, no text, a `NullPointerException` (unverifiable) or an `IOException` (thrown).
- Floating point is not modelled. Sizes arrive as whole millimetres, as `pointsTomm` would round them. `mmToPoints` is an exact rational truncated to one decimal (tenths of a point), not the `float`/`double`/`BigDecimal` chain. PDF versions are `real`s, not `float`s.
- File and stream handling, `PDFBoxConfigurer` and logging are not modelled. They are I/O, global configuration and output.
- `PdfValideringsFeil` (the older error type), `PdfValidateStrategy`, `PdfValidationSettings.Bleed` and `PdfFontValidator.erSupporterteFonter` are not part of this model:
  - the older engine reuses the current error kinds;
  - its result receives the two OK sets and the text of each error as constructor arguments;
  - its font predicate is the parameter `supported`.
- Results.DimensionsMessage: `formattedValidationErrorMessage` and the three-argument result constructor are not part of this model. The message for a bleed is modelled from what the tests expect: the template with its four slots filled with the bounds. The result's own text form renders each message unformatted, as the two-argument constructor does.
- Results.ValidationResult.constructor: the stored list being an unmodifiable view is not modelled, since the list is a value here.
- LegacyResults.LegacyValidationResult.constructor: the list is kept without copying in the source, so later changes by the caller would show through. A value cannot alias, so this is not modelled.
- Fonts.UpperCase: upper-casing covers ASCII letters only. `String.toUpperCase` also maps other scripts and can change a string's length.
- The current engine has a fixed pair of public entry points (`validate` on bytes and on a path). Both reduce to `ValidateForPrint` on a load outcome; the path version's file opening is I/O.

## Code and specification

Where the repository's own documents and its code disagree, the model follows the code:

- Default bleed:
  - `PdfValidationSettings` declares `DEFAULT_BLEED_MM = 0`, so the four-argument constructor and CHECK_ALL use zero bleed.
  - `PdfValidationSettings.java` declares a single `int bleed`, while `PdfValidator` reads `settings.bleed` as a bleed pair.
  - The model uses the pair, as the engine does, and a default of (0, 0).
- Result constructor: `PdfValidator` calls a three-argument result constructor that passes the bleed, but `PdfValidationResult.java` declares only the two-argument constructor, which the model follows.
- Repeated errors: the result's error list can repeat REFERENCES_INVALID_FONT, once per rejected page, because the font check appends per page.
- A refused password:
  - The current engine reports it as PDF_IS_ENCRYPTED.
  - The older engine has no separate handler, so it reports PDF_PARSE_ERROR with page count -1.
- Unreachable streaming path: both public entry points of the older engine use the in-memory strategy, so its streaming loop cannot be reached from outside the class.
