/** The drawing side of the generator: the PDF document the layout writes
    into, seen only through what the layout asks of it — set the font, then
    place a string at a point — and the `docText` helper that combines the
    two. Every call appends one placement record to the document. */
module Drawing {

  /** The horizontal inset of all left-aligned content. */
  const Margin: int := 20

  datatype Style = Normal | Bold

  /** The active font: size in points and style (the family is always
      Helvetica). */
  datatype Font = Font(size: int, style: Style)

  /** `docText`'s defaults: 10pt normal. */
  const BodyFont: Font := Font(10, Normal)

  /** The font of the document before the first call (jsPDF's default size). */
  const InitialFont: Font := Font(16, Normal)

  /** The `align` option of `docText`; only `Right` changes anything. */
  datatype Align = Left | Center | Right

  /** One string placed on the page: `x` is the anchor (the left edge, or
      the right edge for a right-anchored string). */
  datatype Placement = Placement(x: int, y: int, text: string, font: Font, align: Align)

  /** The anchor `docText` passes to the document: right-aligned text is
      anchored at the right margin whatever `x` the caller gave; every other
      alignment uses `x`. */
  function AnchorX(align: Align, x: int, pageWidth: int): (ax: int)
    ensures align == Right ==> ax == pageWidth - Margin
    ensures align != Right ==> ax == x
  {
    if align == Right then pageWidth - Margin else x
  }

  /** The alignment the document is asked for: right, or the default
      (left) for every other value. */
  function AnchorAlign(align: Align): (a: Align)
    ensures a != Center
    ensures a == Right <==> align == Right
  {
    if align == Right then Right else Left
  }

  /** The PDF document of one request: its page width, its active font and
      the strings placed so far, in drawing order. */
  class Doc {
    const pageWidth: int
    var font: Font
    var placements: seq<Placement>

    constructor (pageWidth: int)
      ensures this.pageWidth == pageWidth
      ensures font == InitialFont && placements == []
    {
      this.pageWidth := pageWidth;
      font := InitialFont;
      placements := [];
    }

    /** `docText(x, y, text, { align, fontSize, fontStyle })`: sets the font,
        which stays active after the call, and places `text` at height `y`. */
    method Text(x: int, y: int, text: string, align: Align, fontSize: int, fontStyle: Style)
      modifies this
      ensures font == Font(fontSize, fontStyle)
      ensures placements == old(placements)
        + [Placement(AnchorX(align, x, pageWidth), y, text, font, AnchorAlign(align))]
    {
      font := Font(fontSize, fontStyle);
      placements := placements
        + [Placement(AnchorX(align, x, pageWidth), y, text, font, AnchorAlign(align))];
    }
  }
}
