/**
 * The closed taxonomy of validation errors (PdfValidationError): twelve kinds, each with a
 * fixed English message, and the two classification sets OK_FOR_PRINT and OK_FOR_WEB.
 */
module ValidationErrors {
  import opened Text
  import opened Optional

  datatype ValidationError =
    | PdfIsEncrypted
    | TooManyPagesForAutomatedPrint
    | UnsupportedPdfVersionForPrint
    | InsufficientMarginForPrint
    | UnableToVerifySuitableMarginForPrint
    | PdfParseError
    | PdfParsePageError
    | UnsupportedDimensions
    | ReferencesInvalidFont
    | DocumentTooSmall
    | InvalidPdf
    | DocumentHasNoPages

  /** The kinds in declaration order. */
  const AllKinds: seq<ValidationError> := [
    PdfIsEncrypted, TooManyPagesForAutomatedPrint, UnsupportedPdfVersionForPrint,
    InsufficientMarginForPrint, UnableToVerifySuitableMarginForPrint, PdfParseError,
    PdfParsePageError, UnsupportedDimensions, ReferencesInvalidFont, DocumentTooSmall,
    InvalidPdf, DocumentHasNoPages]

  /** There are exactly twelve kinds: the list is complete and has no repetition. */
  lemma ExactlyTwelveKinds(e: ValidationError)
    ensures e in AllKinds
    ensures |AllKinds| == 12
    ensures forall i, j | 0 <= i < j < |AllKinds| :: AllKinds[i] != AllKinds[j]
  {
  }

  /** OK_FOR_PRINT is the empty set: no single error kind is tolerable for print. */
  const OkForPrintSet: set<ValidationError> := {}

  /** The kinds tolerable when the document is only shown on the web. */
  const OkForWebSet: set<ValidationError> := {
    PdfIsEncrypted, TooManyPagesForAutomatedPrint, UnsupportedPdfVersionForPrint,
    InsufficientMarginForPrint, UnableToVerifySuitableMarginForPrint, UnsupportedDimensions,
    PdfParsePageError}

  predicate IsOkForPrint(e: ValidationError)
    ensures !IsOkForPrint(e)
  {
    e in OkForPrintSet
  }

  predicate IsOkForWeb(e: ValidationError)
    ensures IsOkForWeb(e) <==>
      || e.PdfIsEncrypted? || e.TooManyPagesForAutomatedPrint? || e.UnsupportedPdfVersionForPrint?
      || e.InsufficientMarginForPrint? || e.UnableToVerifySuitableMarginForPrint?
      || e.UnsupportedDimensions? || e.PdfParsePageError?
    ensures !IsOkForWeb(e) <==>
      || e.ReferencesInvalidFont? || e.PdfParseError? || e.DocumentTooSmall? || e.InvalidPdf?
      || e.DocumentHasNoPages?
  {
    e in OkForWebSet
  }

  /** Every element of `errors` belongs to `ok` (Java's Set.containsAll). */
  predicate ContainsAll(ok: set<ValidationError>, errors: seq<ValidationError>) {
    forall i | 0 <= i < |errors| :: errors[i] in ok
  }

  /** Since OK_FOR_PRINT is empty, a list passes it exactly when the list is empty. */
  lemma OkForPrintIffEmpty(errors: seq<ValidationError>)
    ensures ContainsAll(OkForPrintSet, errors) <==> errors == []
  {
    if errors != [] {
      assert errors[0] !in OkForPrintSet;
    }
  }

  /** The barcode strip width quoted in both margin messages. */
  const BarcodeAreaWidthMm: int := 15

  /** The pieces of the UNSUPPORTED_DIMENSIONS template around its four `%s` slots. */
  const DimensionsPiece0: string :=
    "The dimensions of the PDF " + "document are not supported. " + "Supported dimensions are " + "width between "
  const DimensionsDash: string := "—"
  const DimensionsPiece2: string := " mm and height between "
  const DimensionsPiece4: string :=
    " mm. If these limits should " + "be changed, contact " + "digipost support."

  const DimensionsTemplate: string :=
    DimensionsPiece0 + ("%s" + (DimensionsDash + ("%s" + (DimensionsPiece2 + ("%s" + (DimensionsDash + ("%s" + DimensionsPiece4)))))))

  /** The two margin messages up to the quoted barcode width. */
  const InsufficientMarginLead: string := "The left margin of the PDF document is too narrow. Minimum left margin is "
  const UnverifiableMarginLead: string := "Could not verify the left margin of the PDF document. Minimum left margin is "

  /** The fixed messages. */
  const PdfIsEncryptedText: string := "The PDF document is encrypted."
  const TooManyPagesForAutomatedPrintText: string := "The PDF document contains too many pages."
  const UnsupportedPdfVersionForPrintText: string := "The version of the PDF document is not supported. Supported versions are 1.0, 1.1, 1.2, 1.3, 1.4, 1.5, 1.6, 1.7."
  const PdfParseErrorText: string := "Could not parse the PDF document."
  const PdfParsePageErrorText: string := "Could not parse at least one of the pages in the PDF document"
  const ReferencesInvalidFontText: string := "The document refers to a non-standard font that is not included in the PDF."
  const DocumentTooSmallText: string := "The PDF document size is too small."
  const InvalidPdfText: string := "The PDF document is invalid."
  const DocumentHasNoPagesText: string := "The PDF document does not contain any pages. The file may be corrupt."

  /** The message each kind carries; toString returns it unchanged. */
  function Message(e: ValidationError): string {
    match e
    case PdfIsEncrypted => PdfIsEncryptedText
    case TooManyPagesForAutomatedPrint => TooManyPagesForAutomatedPrintText
    case UnsupportedPdfVersionForPrint => UnsupportedPdfVersionForPrintText
    case InsufficientMarginForPrint => InsufficientMarginLead + IntToString(BarcodeAreaWidthMm) + " mm."
    case UnableToVerifySuitableMarginForPrint => UnverifiableMarginLead + IntToString(BarcodeAreaWidthMm) + " mm."
    case PdfParseError => PdfParseErrorText
    case PdfParsePageError => PdfParsePageErrorText
    case UnsupportedDimensions => DimensionsTemplate
    case ReferencesInvalidFont => ReferencesInvalidFontText
    case DocumentTooSmall => DocumentTooSmallText
    case InvalidPdf => InvalidPdfText
    case DocumentHasNoPages => DocumentHasNoPagesText
  }

  /** toString of a kind is its message, and no other kind prints the same text. */
  function ToString(e: ValidationError): (s: string)
    ensures s == Message(e)
    ensures forall other | other != e :: Message(other) != s
  {
    assert forall other | other != e :: Message(other) != Message(e) by {
      forall other | other != e ensures Message(other) != Message(e) {
        MessagesDistinct(other, e);
      }
    }
    Message(e)
  }

  /** Distinct kinds carry distinct messages. */
  lemma MessagesDistinct(a: ValidationError, b: ValidationError)
    requires a != b
    ensures Message(a) != Message(b)
  {
    MessageLength(a);
    MessageLength(b);
    MessageSizesDistinct(a, b);
  }

  /** The number of characters in each kind's message. */
  function MessageSize(e: ValidationError): nat {
    match e
    case PdfIsEncrypted => 30
    case TooManyPagesForAutomatedPrint => 41
    case UnsupportedPdfVersionForPrint => 112
    case InsufficientMarginForPrint => 80
    case UnableToVerifySuitableMarginForPrint => 83
    case PdfParseError => 33
    case PdfParsePageError => 61
    case UnsupportedDimensions => 191
    case ReferencesInvalidFont => 75
    case DocumentTooSmall => 35
    case InvalidPdf => 28
    case DocumentHasNoPages => 69
  }

  /** No two kinds have messages of the same length. */
  lemma MessageSizesDistinct(a: ValidationError, b: ValidationError)
    requires a != b
    ensures MessageSize(a) != MessageSize(b)
  {
  }

  lemma MessageLength(e: ValidationError)
    ensures |Message(e)| == MessageSize(e)
  {
    match e
    case UnsupportedDimensions =>
      DimensionsTemplateLength();
    case InsufficientMarginForPrint =>
      MarginMessageLengths();
    case UnableToVerifySuitableMarginForPrint =>
      MarginMessageLengths();
    case _ =>
      FixedMessageLengths();
  }

  lemma FixedMessageLengths()
    ensures |Message(PdfIsEncrypted)| == MessageSize(PdfIsEncrypted)
    ensures |Message(TooManyPagesForAutomatedPrint)| == MessageSize(TooManyPagesForAutomatedPrint)
    ensures |Message(UnsupportedPdfVersionForPrint)| == MessageSize(UnsupportedPdfVersionForPrint)
    ensures |Message(PdfParseError)| == MessageSize(PdfParseError)
    ensures |Message(PdfParsePageError)| == MessageSize(PdfParsePageError)
    ensures |Message(ReferencesInvalidFont)| == MessageSize(ReferencesInvalidFont)
    ensures |Message(DocumentTooSmall)| == MessageSize(DocumentTooSmall)
    ensures |Message(InvalidPdf)| == MessageSize(InvalidPdf)
    ensures |Message(DocumentHasNoPages)| == MessageSize(DocumentHasNoPages)
  {
  }

  lemma MarginMessageLengths()
    ensures |Message(InsufficientMarginForPrint)| == MessageSize(InsufficientMarginForPrint)
    ensures |Message(UnableToVerifySuitableMarginForPrint)| == MessageSize(UnableToVerifySuitableMarginForPrint)
  {
    BarcodeWidthText();
  }

  lemma DimensionsTemplateLength()
    ensures |Message(UnsupportedDimensions)| == MessageSize(UnsupportedDimensions)
  {
  }

  /** Both margin messages quote the 15 mm barcode width. */
  lemma MarginMessagesQuoteBarcodeWidth()
    ensures Contains(Message(InsufficientMarginForPrint), "15 mm")
    ensures Contains(Message(UnableToVerifySuitableMarginForPrint), "15 mm")
  {
    BarcodeWidthText();
    QuotesWidth(InsufficientMarginLead);
    QuotesWidth(UnverifiableMarginLead);
  }

  /** The barcode width rendered in decimal. */
  lemma BarcodeWidthText()
    ensures IntToString(BarcodeAreaWidthMm) == "15"
  {
    assert NatToString(15) == NatToString(1) + [DigitChar(5)];
  }

  /** A margin message quotes the width with its unit, whatever its lead. */
  lemma QuotesWidth(lead: string)
    ensures Contains(lead + "15" + " mm.", "15 mm")
  {
    ContainsSelf("15 mm");
    ContainsInContext(lead, "15 mm", ".", "15 mm");
    assert lead + "15 mm" + "." == lead + "15" + " mm.";
  }

  /** Number of `%s` conversion slots in a template. */
  function CountSlots(t: string): nat
    decreases |t|
  {
    if |t| < 2 then 0
    else if t[0] == '%' && t[1] == 's' then 1 + CountSlots(t[2..])
    else CountSlots(t[1..])
  }

  /**
   * String.format restricted to `%s`: each slot is replaced by the next argument, in order;
   * too few arguments is a failure (None), surplus arguments are ignored.
   */
  function Format(t: string, args: seq<string>): Option<string>
    decreases |t|
  {
    if |t| < 2 then Some(t)
    else if t[0] == '%' && t[1] == 's' then
      if args == [] then None
      else match Format(t[2..], args[1..])
        case None => None
        case Some(rest) => Some(args[0] + rest)
    else match Format(t[1..], args)
      case None => None
      case Some(rest) => Some([t[0]] + rest)
  }

  /** A piece free of '%' is copied through unchanged, and contains no slot. */
  lemma {:induction false} FormatPiece(piece: string, rest: string, args: seq<string>)
    requires NoPercent(piece)
    ensures Format(piece + rest, args) ==
      match Format(rest, args) case None => None case Some(r) => Some(piece + r)
    ensures CountSlots(piece + rest) == CountSlots(rest)
    decreases |piece|
  {
    if piece == [] {
      assert piece + rest == rest;
      if Format(rest, args).Some? {
        var r := Format(rest, args).value;
        assert piece + r == r;
      }
    } else {
      var t := piece + rest;
      assert t[0] == piece[0] && t[0] != '%';
      assert t[1..] == piece[1..] + rest;
      FormatPiece(piece[1..], rest, args);
      if |t| < 2 {
        assert rest == [] && piece == [t[0]];
        assert Format(rest, args) == Some([]);
        assert piece + [] == piece;
      } else {
        if Format(rest, args).Some? {
          var r := Format(rest, args).value;
          assert [t[0]] + (piece[1..] + r) == piece + r;
        }
      }
    }
  }

  /** A leading slot consumes the first argument. */
  lemma FormatSlot(rest: string, a: string, args: seq<string>)
    ensures Format("%s" + rest, [a] + args) ==
      match Format(rest, args) case None => None case Some(r) => Some(a + r)
    ensures CountSlots("%s" + rest) == 1 + CountSlots(rest)
  {
    var t := "%s" + rest;
    assert t[2..] == rest;
    assert ([a] + args)[1..] == args;
  }

  /** A '%'-free piece followed by a slot: the piece is copied and the slot takes the first argument. */
  lemma FillPieceSlot(piece: string, rest: string, a: string, args: seq<string>)
    requires NoPercent(piece) && Format(rest, args).Some?
    ensures Format(piece + ("%s" + rest), [a] + args) == Some(piece + (a + Format(rest, args).value))
    ensures CountSlots(piece + ("%s" + rest)) == 1 + CountSlots(rest)
  {
    FormatSlot(rest, a, args);
    FormatPiece(piece, "%s" + rest, [a] + args);
  }

  /** Two pieces each followed by a slot take the first two arguments. */
  lemma FillTwoSlots(p: string, d: string, rest: string, a: string, b: string, args: seq<string>)
    requires NoPercent(p) && NoPercent(d) && Format(rest, args).Some?
    ensures Format(p + ("%s" + (d + ("%s" + rest))), [a, b] + args) ==
      Some(p + (a + (d + (b + Format(rest, args).value))))
    ensures CountSlots(p + ("%s" + (d + ("%s" + rest)))) == 2 + CountSlots(rest)
  {
    FillPieceSlot(d, rest, b, args);
    FillPieceSlot(p, d + ("%s" + rest), a, [b] + args);
    assert [a] + ([b] + args) == [a, b] + args;
  }

  /** A four-slot template `p0 %s d %s p2 %s d %s p4` is filled in argument order. */
  lemma FillFourSlots(p0: string, d: string, p2: string, p4: string,
                      a0: string, a1: string, a2: string, a3: string)
    requires NoPercent(p0) && NoPercent(d) && NoPercent(p2) && NoPercent(p4)
    ensures CountSlots(p0 + ("%s" + (d + ("%s" + (p2 + ("%s" + (d + ("%s" + p4)))))))) == 4
    ensures Format(p0 + ("%s" + (d + ("%s" + (p2 + ("%s" + (d + ("%s" + p4))))))), [a0, a1, a2, a3]) ==
      Some(p0 + (a0 + (d + (a1 + (p2 + (a2 + (d + (a3 + p4))))))))
  {
    FormatPiece(p4, [], []);
    assert p4 + [] == p4;
    assert Format(p4, []) == Some(p4) && CountSlots(p4) == 0;
    FillTwoSlots(p2, d, p4, a2, a3, []);
    assert [a2, a3] + [] == [a2, a3];
    var t2 := p2 + ("%s" + (d + ("%s" + p4)));
    assert Format(t2, [a2, a3]) == Some(p2 + (a2 + (d + (a3 + p4)))) && CountSlots(t2) == 2;
    FillTwoSlots(p0, d, t2, a0, a1, [a2, a3]);
    PairsMakeFour(a0, a1, a2, a3);
  }

  /** Two pairs of arguments in a row are the four arguments. */
  lemma PairsMakeFour<T>(a0: T, a1: T, a2: T, a3: T)
    ensures [a0, a1] + [a2, a3] == [a0, a1, a2, a3]
  {
    var four := [a0, a1] + [a2, a3];
    assert |four| == 4 && four[0] == a0 && four[1] == a1 && four[2] == a2 && four[3] == a3;
  }

  /** The fixed text around the slots holds no conversion of its own. */
  lemma DimensionsPiecesHaveNoPercent()
    ensures NoPercent(DimensionsPiece0) && NoPercent(DimensionsDash)
    ensures NoPercent(DimensionsPiece2) && NoPercent(DimensionsPiece4)
  {
    LeadHasNoPercent();
    TailHasNoPercent();
    assert NoPercent(DimensionsDash) && NoPercent(DimensionsPiece2);
  }

  /** The text before the first slot is '%'-free. */
  lemma LeadHasNoPercent()
    ensures NoPercent(DimensionsPiece0)
  {
    NoPercentConcat("The dimensions of the PDF ", "document are not supported. ");
    NoPercentConcat("The dimensions of the PDF " + "document are not supported. ", "Supported dimensions are ");
    NoPercentConcat("The dimensions of the PDF " + "document are not supported. " + "Supported dimensions are ", "width between ");
  }

  /** The text after the last slot is '%'-free. */
  lemma TailHasNoPercent()
    ensures NoPercent(DimensionsPiece4)
  {
    NoPercentConcat(" mm. If these limits should ", "be changed, contact ");
    NoPercentConcat(" mm. If these limits should " + "be changed, contact ", "digipost support.");
  }

  /** The UNSUPPORTED_DIMENSIONS template has four slots, filled in order. */
  lemma DimensionsTemplateFill(a0: string, a1: string, a2: string, a3: string)
    ensures CountSlots(DimensionsTemplate) == 4
    ensures Format(DimensionsTemplate, [a0, a1, a2, a3]) ==
      Some(DimensionsPiece0 + (a0 + (DimensionsDash + (a1 + (DimensionsPiece2 + (a2 + (DimensionsDash + (a3 + DimensionsPiece4))))))))
  {
    DimensionsPiecesHaveNoPercent();
    FillFourSlots(DimensionsPiece0, DimensionsDash, DimensionsPiece2, DimensionsPiece4, a0, a1, a2, a3);
  }
}
