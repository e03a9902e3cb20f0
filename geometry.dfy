/**
 * Page geometry of PdfValidator: A4 classification with bleed tolerance, and the barcode
 * silent zone. Page sizes are whole millimetres (the rounding of points to millimetres happens
 * outside the model); zone coordinates are tenths of a point.
 */
module Geometry {
  import opened Settings

  const A4HeightMm: int := 297
  const A4WidthMm: int := 210
  const BarcodeAreaWidthMm: int := 15
  const BarcodeAreaHeightMm: int := 80
  const BarcodeAreaXPosMm: int := 0
  const BarcodeAreaYPosMm: int := 95

  /** A page box size in whole millimetres. */
  datatype Size = Size(widthMm: int, heightMm: int)

  /** Portrait A4 within the bleed: both sides inside their inclusive intervals. */
  predicate IsPortraitA4(widthMm: int, heightMm: int, bleed: Bleed) {
    var minimumWidth := A4WidthMm - bleed.negativeBleedInMm;
    var maximumWidth := A4WidthMm + bleed.positiveBleedInMm;
    var minimumHeight := A4HeightMm - bleed.negativeBleedInMm;
    var maximumHeight := A4HeightMm + bleed.positiveBleedInMm;
    widthMm <= maximumWidth && widthMm >= minimumWidth
      && heightMm <= maximumHeight && heightMm >= minimumHeight
  }

  /** Landscape A4 is the portrait test with the sides exchanged. */
  predicate IsLandscapeA4(widthMm: int, heightMm: int, bleed: Bleed) {
    IsPortraitA4(heightMm, widthMm, bleed)
  }

  /** A page is rejected when it is neither portrait nor landscape A4. */
  predicate HasInvalidDimensions(box: Size, bleed: Bleed) {
    !IsPortraitA4(box.widthMm, box.heightMm, bleed) && !IsLandscapeA4(box.widthMm, box.heightMm, bleed)
  }

  /** The accepted rectangle of sizes, stated as bounds. */
  lemma PortraitBounds(w: int, h: int, bleed: Bleed)
    ensures IsPortraitA4(w, h, bleed) <==>
      210 - bleed.negativeBleedInMm <= w <= 210 + bleed.positiveBleedInMm &&
      297 - bleed.negativeBleedInMm <= h <= 297 + bleed.positiveBleedInMm
    ensures IsLandscapeA4(w, h, bleed) <==>
      210 - bleed.negativeBleedInMm <= h <= 210 + bleed.positiveBleedInMm &&
      297 - bleed.negativeBleedInMm <= w <= 297 + bleed.positiveBleedInMm
  {
  }

  /** Widening the bleed never rejects a page that was accepted before. */
  lemma BleedMonotone(box: Size, b1: Bleed, b2: Bleed)
    requires b1.positiveBleedInMm <= b2.positiveBleedInMm
    requires b1.negativeBleedInMm <= b2.negativeBleedInMm
    ensures HasInvalidDimensions(box, b2) ==> HasInvalidDimensions(box, b1)
  {
  }

  /** Without bleed exactly the two A4 orientations are accepted. */
  lemma ZeroBleedIsExactA4(box: Size)
    ensures !HasInvalidDimensions(box, Bleed(0, 0)) <==>
      box == Size(210, 297) || box == Size(297, 210)
  {
  }

  /**
   * mmToPoints at one decimal, rounded toward zero, as tenths of a point:
   * mm * 72 / 25.4 * 10 = mm * 3600 / 127. The result never exceeds the exact value in
   * magnitude and is within one tenth of it.
   */
  function MmToPointTenths(mm: int): (t: int)
    ensures mm >= 0 ==> 0 <= t && 127 * t <= 3600 * mm < 127 * (t + 1)
    ensures mm < 0 ==> t <= 0 && 127 * (t - 1) < 3600 * mm <= 127 * t
  {
    if mm >= 0 then (mm * 3600) / 127 else -((-mm * 3600) / 127)
  }

  /** A larger length in mm never converts to fewer points. */
  lemma MmToPointTenthsMonotone(a: int, b: int)
    requires a <= b
    ensures MmToPointTenths(a) <= MmToPointTenths(b)
  {
  }

  /** A rectangle: upper-left corner and size. */
  datatype Rect = Rect(x: int, y: int, width: int, height: int)

  /**
   * The barcode silent zone in mm for a page of the given size. For a landscape page the
   * portrait rectangle is transposed: it starts at the portrait y-offset and sits against the
   * page's far edge.
   */
  function SilentZoneMm(widthMm: int, heightMm: int, bleed: Bleed): (z: Rect)
    ensures !IsLandscapeA4(widthMm, heightMm, bleed) ==> z == Rect(0, 95, 15, 80)
    ensures IsLandscapeA4(widthMm, heightMm, bleed) ==>
      z.x == 95 && z.width == 80 && z.height == 15 && z.y + z.height == heightMm
  {
    var isLandscape := IsLandscapeA4(widthMm, heightMm, bleed);
    Rect(
      if isLandscape then BarcodeAreaYPosMm else BarcodeAreaXPosMm,
      if isLandscape then heightMm - BarcodeAreaWidthMm else BarcodeAreaYPosMm,
      if isLandscape then BarcodeAreaHeightMm else BarcodeAreaWidthMm,
      if isLandscape then BarcodeAreaWidthMm else BarcodeAreaHeightMm)
  }

  /** Each coordinate converted to points (tenths), truncated toward zero. */
  function RectToPointTenths(r: Rect): Rect {
    Rect(MmToPointTenths(r.x), MmToPointTenths(r.y), MmToPointTenths(r.width), MmToPointTenths(r.height))
  }

  /** The silent zone handed to the text extraction, in tenths of a point. */
  function SilentZone(box: Size, bleed: Bleed): Rect {
    RectToPointTenths(SilentZoneMm(box.widthMm, box.heightMm, bleed))
  }

  /** The landscape zone is the portrait zone with its sides exchanged. */
  lemma {:induction false} LandscapeZoneIsTransposed(box: Size, bleed: Bleed)
    requires IsLandscapeA4(box.widthMm, box.heightMm, bleed)
    ensures SilentZone(box, bleed).width == SilentZone(Size(210, 297), Bleed(0, 0)).height
    ensures SilentZone(box, bleed).height == SilentZone(Size(210, 297), Bleed(0, 0)).width
    ensures SilentZone(box, bleed).x == SilentZone(Size(210, 297), Bleed(0, 0)).y
  {
    assert !IsLandscapeA4(210, 297, Bleed(0, 0));
    var portrait := SilentZoneMm(210, 297, Bleed(0, 0));
    var landscape := SilentZoneMm(box.widthMm, box.heightMm, bleed);
    assert portrait == Rect(0, 95, 15, 80);
    assert landscape.width == portrait.height && landscape.height == portrait.width && landscape.x == portrait.y;
  }

  /** The converted zone stays inside the exact one: truncation keeps it conservative. */
  lemma ZoneNotLargerThanExact(r: Rect)
    requires r.width >= 0 && r.height >= 0
    ensures 127 * RectToPointTenths(r).width <= 3600 * r.width
    ensures 127 * RectToPointTenths(r).height <= 3600 * r.height
  {
  }
}
