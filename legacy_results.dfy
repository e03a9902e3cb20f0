/**
 * The result of the older engine (PdfValideringsResultat): the error list as given, the page
 * count, and OK-for-print, OK-for-web and the text form each computed on first request and kept.
 * The older error type's classification sets and texts are not part of this model, so they
 * are given to the constructor.
 */
module LegacyResults {
  import opened Optional
  import opened ValidationErrors
  import opened Results

  const LegacyClassName: string := "PdfValideringsResultat"

  class LegacyValidationResult {
    const errors: seq<ValidationError>
    const pageCount: int
    const okForPrintSet: set<ValidationError>
    const okForWebSet: set<ValidationError>
    const describe: ValidationError -> string
    var okForPrint: Option<bool>
    var okForWeb: Option<bool>
    var toStringValue: Option<string>

    /** Each cached value, once present, is what it would be computed as from `errors`. */
    ghost predicate Valid()
      reads this
    {
      && (okForPrint.Some? ==> okForPrint.value == ContainsAll(okForPrintSet, errors))
      && (okForWeb.Some? ==> okForWeb.value == ContainsAll(okForWebSet, errors))
      && (toStringValue.Some? ==> toStringValue.value == Render(LegacyClassName, errors, describe))
    }

    /** A missing (null) list becomes the empty list; nothing is computed yet. */
    constructor (errs: Option<seq<ValidationError>>, pageCount: int,
                 okForPrintSet: set<ValidationError>, okForWebSet: set<ValidationError>,
                 describe: ValidationError -> string)
      ensures Valid()
      ensures errors == (if errs.Some? then errs.value else [])
      ensures this.pageCount == pageCount
      ensures this.okForPrintSet == okForPrintSet && this.okForWebSet == okForWebSet && this.describe == describe
      ensures okForPrint == None && okForWeb == None && toStringValue == None
    {
      errors := if errs.Some? then errs.value else [];
      this.pageCount := pageCount;
      this.okForPrintSet := okForPrintSet;
      this.okForWebSet := okForWebSet;
      this.describe := describe;
      okForPrint, okForWeb, toStringValue := None, None, None;
    }

    /** isOkForPrint: every error is OK for print; computed on the first call, then cached. */
    method IsOkForPrint() returns (b: bool)
      requires Valid()
      modifies this
      ensures Valid()
      ensures b == ContainsAll(okForPrintSet, errors)
      ensures okForPrint == Some(b)
      ensures okForWeb == old(okForWeb) && toStringValue == old(toStringValue)
    {
      if okForPrint.None? {
        okForPrint := Some(ContainsAll(okForPrintSet, errors));
      }
      b := okForPrint.value;
    }

    /** isOkForWeb: every error is OK for web; computed on the first call, then cached. */
    method IsOkForWeb() returns (b: bool)
      requires Valid()
      modifies this
      ensures Valid()
      ensures b == ContainsAll(okForWebSet, errors)
      ensures okForWeb == Some(b)
      ensures okForPrint == old(okForPrint) && toStringValue == old(toStringValue)
    {
      if okForWeb.None? {
        okForWeb := Some(ContainsAll(okForWebSet, errors));
      }
      b := okForWeb.value;
    }

    /** The text form, built on the first call and kept. */
    method ToString() returns (s: string)
      requires Valid()
      modifies this
      ensures Valid()
      ensures s == Render(LegacyClassName, errors, describe)
      ensures toStringValue == Some(s)
      ensures okForPrint == old(okForPrint) && okForWeb == old(okForWeb)
    {
      if toStringValue.None? {
        var text := BuildText(LegacyClassName, errors, describe);
        toStringValue := Some(text);
      }
      s := toStringValue.value;
    }
  }
}
