/**
 * The outcome of one validation (PdfValidationResult): the error list, the two
 * classification flags derived from it once, the page count, and a lazily built text form.
 */
module Results {
  import opened Optional
  import opened Text
  import opened ValidationErrors
  import opened Settings
  import opened Geometry

  const ClassName: string := "PdfValidationResult"

  /** Each error's text, each preceded by one space, in list order. */
  function Joined(errors: seq<ValidationError>, describe: ValidationError -> string): string {
    if errors == [] then []
    else Joined(errors[..|errors| - 1], describe) + (" " + describe(errors[|errors| - 1]))
  }

  /** The text form: "[", the class name, the errors' texts, "]". */
  function Render(name: string, errors: seq<ValidationError>, describe: ValidationError -> string): string {
    "[" + name + Joined(errors, describe) + "]"
  }

  /** The text of every error appears in the joined text. */
  lemma {:induction false} JoinedMentionsEveryError(errors: seq<ValidationError>, describe: ValidationError -> string, k: int)
    requires 0 <= k < |errors|
    ensures Contains(Joined(errors, describe), describe(errors[k]))
  {
    var init := errors[..|errors| - 1];
    var piece := " " + describe(errors[|errors| - 1]);
    if k < |errors| - 1 {
      JoinedMentionsEveryError(init, describe, k);
      assert init[k] == errors[k];
      ContainsInContext([], Joined(init, describe), piece, describe(errors[k]));
      assert [] + Joined(init, describe) + piece == Joined(errors, describe);
    } else {
      ContainsSelf(describe(errors[k]));
      ContainsInContext(Joined(init, describe) + " ", describe(errors[k]), [], describe(errors[k]));
      assert Joined(init, describe) + " " + describe(errors[k]) + [] == Joined(errors, describe);
    }
  }

  /**
   * The text form opens with "[" and the class name, closes with "]", mentions the text of
   * every error, and is exactly "[" + name + "]" when there are no errors.
   */
  lemma RenderShape(name: string, errors: seq<ValidationError>, describe: ValidationError -> string)
    ensures var s := Render(name, errors, describe);
      |s| >= |name| + 2 && s[..|name| + 1] == "[" + name && s[|s| - 1] == ']'
    ensures errors == [] ==> Render(name, errors, describe) == "[" + name + "]"
    ensures forall k | 0 <= k < |errors| :: Contains(Render(name, errors, describe), describe(errors[k]))
  {
    var s := Render(name, errors, describe);
    assert s[..|name| + 1] == "[" + name;
    forall k | 0 <= k < |errors| ensures Contains(s, describe(errors[k])) {
      JoinedMentionsEveryError(errors, describe, k);
      ContainsInContext("[" + name, Joined(errors, describe), "]", describe(errors[k]));
    }
  }

  /** The text form of one more error extends the joined part by a space and its text. */
  lemma {:induction false} RenderAppend(name: string, errors: seq<ValidationError>, e: ValidationError,
                                        describe: ValidationError -> string)
    ensures Render(name, errors + [e], describe) == "[" + name + Joined(errors, describe) + " " + describe(e) + "]"
  {
    assert (errors + [e])[..|errors|] == errors;
  }

  /** The StringBuilder loop of toString: "[" and the name, then a space and the text of each error, then "]". */
  method BuildText(name: string, errors: seq<ValidationError>, describe: ValidationError -> string) returns (text: string)
    ensures text == Render(name, errors, describe)
  {
    var sb := "[" + name;
    var i := 0;
    while i < |errors|
      invariant 0 <= i <= |errors|
      invariant sb == "[" + name + Joined(errors[..i], describe)
    {
      assert errors[..i + 1][..i] == errors[..i];
      sb := sb + " " + describe(errors[i]);
      i := i + 1;
    }
    assert errors[..i] == errors;
    text := sb + "]";
  }

  class ValidationResult {
    const errors: seq<ValidationError>
    const okForPrint: bool
    const okForWeb: bool
    const pages: int
    var toStringValue: Option<string>

    /** The flags describe `errors`, and a cached text form is the text form of `errors`. */
    ghost predicate Valid()
      reads this
    {
      && okForPrint == ContainsAll(OkForPrintSet, errors)
      && okForWeb == ContainsAll(OkForWebSet, errors)
      && (toStringValue.Some? ==> toStringValue.value == Render(ClassName, errors, Message))
    }

    /** A missing (null) list becomes the empty list; both flags are computed here, once. */
    constructor (errs: Option<seq<ValidationError>>, pages: int)
      ensures Valid()
      ensures this.pages == pages
      ensures errors == (if errs.Some? then errs.value else [])
      ensures okForPrint <==> errors == []
      ensures okForWeb <==> forall k | 0 <= k < |errors| :: IsOkForWeb(errors[k])
      ensures toStringValue == None
    {
      this.pages := pages;
      var list := if errs.Some? then errs.value else [];
      this.errors := list;
      this.okForPrint := ContainsAll(OkForPrintSet, list);
      this.okForWeb := ContainsAll(OkForWebSet, list);
      this.toStringValue := None;
      new;
      OkForPrintIffEmpty(errors);
    }

    /** There are errors exactly when the result is not OK for print. */
    method HasErrors() returns (b: bool)
      requires Valid()
      ensures b <==> errors != []
      ensures b <==> !okForPrint
    {
      OkForPrintIffEmpty(errors);
      b := errors != [];
    }

    /** The text form, built on first use and kept. */
    method ToString() returns (s: string)
      requires Valid()
      modifies this
      ensures Valid()
      ensures s == Render(ClassName, errors, Message)
      ensures toStringValue == Some(s)
    {
      if toStringValue.None? {
        var text := BuildText(ClassName, errors, Message);
        toStringValue := Some(text);
      }
      s := toStringValue.value;
    }
  }

  /** EVERYTHING_OK: no errors, unknown page count (-1), OK for print and web. */
  method EverythingOk() returns (r: ValidationResult)
    ensures fresh(r) && r.Valid()
    ensures r.errors == [] && r.pages == -1 && r.okForPrint && r.okForWeb
  {
    r := new ValidationResult(Some([]), -1);
  }

  /**
   * The UNSUPPORTED_DIMENSIONS text for a bleed: the template's four slots filled with the
   * smallest and largest accepted width, then the smallest and largest accepted height.
   */
  function DimensionsMessage(bleed: Bleed): Option<string> {
    Format(DimensionsTemplate,
           [IntToString(A4WidthMm - bleed.negativeBleedInMm), IntToString(A4WidthMm + bleed.positiveBleedInMm),
            IntToString(A4HeightMm - bleed.negativeBleedInMm), IntToString(A4HeightMm + bleed.positiveBleedInMm)])
  }

  /** The filled message always exists and quotes the width range and the height range, each as low—high. */
  lemma DimensionsMessageQuotesBounds(bleed: Bleed)
    ensures DimensionsMessage(bleed).Some?
    ensures Contains(DimensionsMessage(bleed).value, IntToString(A4WidthMm - bleed.negativeBleedInMm)
      + DimensionsDash + IntToString(A4WidthMm + bleed.positiveBleedInMm))
    ensures Contains(DimensionsMessage(bleed).value, IntToString(A4HeightMm - bleed.negativeBleedInMm)
      + DimensionsDash + IntToString(A4HeightMm + bleed.positiveBleedInMm))
  {
    var a0, a1 := IntToString(A4WidthMm - bleed.negativeBleedInMm), IntToString(A4WidthMm + bleed.positiveBleedInMm);
    var a2, a3 := IntToString(A4HeightMm - bleed.negativeBleedInMm), IntToString(A4HeightMm + bleed.positiveBleedInMm);
    DimensionsTemplateFill(a0, a1, a2, a3);
    QuotesBothRanges(DimensionsPiece0, DimensionsDash, DimensionsPiece2, DimensionsPiece4, a0, a1, a2, a3);
  }

  /** A text built like the filled template contains both low—high pairs. */
  lemma QuotesBothRanges(p0: string, dash: string, p2: string, p4: string, a0: string, a1: string, a2: string, a3: string)
    ensures var m := p0 + (a0 + (dash + (a1 + (p2 + (a2 + (dash + (a3 + p4)))))));
      Contains(m, a0 + dash + a1) && Contains(m, a2 + dash + a3)
  {
    var m := p0 + (a0 + (dash + (a1 + (p2 + (a2 + (dash + (a3 + p4)))))));
    var width, height := a0 + dash + a1, a2 + dash + a3;
    ContainsSelf(width);
    ContainsInContext(p0, width, p2 + height + p4, width);
    assert m == p0 + width + (p2 + height + p4);
    ContainsSelf(height);
    ContainsInContext(p0 + width + p2, height, p4, height);
    assert m == p0 + width + p2 + height + p4;
  }

  /** With a bleed of 2 mm outwards and 3 mm inwards the message quotes 207—212 and 294—299. */
  lemma DimensionsMessageForBleedTwoThree()
    ensures DimensionsMessage(Bleed(2, 3)).Some?
    ensures Contains(DimensionsMessage(Bleed(2, 3)).value, "207" + DimensionsDash + "212")
    ensures Contains(DimensionsMessage(Bleed(2, 3)).value, "294" + DimensionsDash + "299")
  {
    BoundsForBleedTwoThree();
    DimensionsMessageQuotesBounds(Bleed(2, 3));
  }

  /** The four bounds for that bleed, in decimal. */
  lemma BoundsForBleedTwoThree()
    ensures IntToString(207) == "207" && IntToString(212) == "212"
    ensures IntToString(294) == "294" && IntToString(299) == "299"
  {
    assert NatToString(2) == "2" && NatToString(21) == "21" && NatToString(29) == "29";
    assert NatToString(20) == "20";
  }
}
