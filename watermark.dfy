/**
 * ImageProcessor.add_watermark (main.py:31-65): a label in the bottom-right
 * corner on a light background box. The layout arithmetic is exact; glyph
 * measurement and rendering are Pillow's and come from the `Library`.
 */
module Watermark {
  import opened Results
  import opened Pixels
  import opened Backend

  /** The label add_watermark draws when its caller passes none. */
  const Label: string := "@cat"

  function Min(a: nat, b: nat): nat {
    if a <= b then a else b
  }

  /** max(20, min(w, h) // 30): never below 20, and above 20 only from 630 px on the shorter side. */
  function FontSize(w: nat, h: nat): (size: nat)
    ensures size >= 20
    ensures size == 20 <==> Min(w, h) < 630
    ensures size > 20 ==> size * 30 <= Min(w, h) < size * 30 + 30
  {
    var scaled := Min(w, h) / 30;
    if 20 >= scaled then 20 else scaled
  }

  /** The font grows (weakly) with the image. */
  lemma FontSizeMonotone(w: nat, h: nat, w': nat, h': nat)
    requires w <= w' && h <= h'
    ensures FontSize(w, h) <= FontSize(w', h')
  {
    var m, m' := Min(w, h), Min(w', h');
    assert m <= m';
    assert m / 30 <= m' / 30;
  }

  /** A rectangle as Pillow's draw.rectangle takes it: both corners inclusive. */
  datatype Box = Box(left: int, top: int, right: int, bottom: int)

  /** Pixel (x, y) = (column, row) lies in the box. */
  predicate InBox(box: Box, x: int, y: int) {
    box.left <= x <= box.right && box.top <= y <= box.bottom
  }

  /** Where the text goes and the background box behind it. */
  datatype Placement = Placement(x: int, y: int, background: Box)

  /**
   * The text origin and background box for an image of w x h whose label
   * measures tw x th (the width and height of its textbbox).
   */
  function Place(w: nat, h: nat, tw: int, th: int): (p: Placement)
    // the text box ends 20 px inside the right and bottom edges
    ensures p.x + tw == w - 20 && p.y + th == h - 20
    // the background is the text box grown by 10 px left and right, 5 px up and down
    ensures p.background.left == p.x - 10 && p.background.right == p.x + tw + 10
    ensures p.background.top == p.y - 5 && p.background.bottom == p.y + th + 5
    // so it always stops short of the right and bottom edges
    ensures p.background.right == w - 10 && p.background.bottom == h - 15
    // nothing keeps it from running off the left or top edge of a small image
    ensures p.x >= 0 && p.y >= 0 <==> tw + 20 <= w && th + 20 <= h
    ensures p.background.left >= 0 && p.background.top >= 0 <==> tw + 30 <= w && th + 25 <= h
  {
    var x := w - tw - 20;
    var y := h - th - 20;
    Placement(x, y, Box(x - 10, y - 5, x + tw + 10, y + th + 5))
  }

  /** The background box covers every pixel of the text box. */
  lemma TextInsideBackground(w: nat, h: nat, tw: int, th: int, x: int, y: int)
    requires Place(w, h, tw, th).x <= x <= Place(w, h, tw, th).x + tw
    requires Place(w, h, tw, th).y <= y <= Place(w, h, tw, th).y + th
    ensures InBox(Place(w, h, tw, th).background, x, y)
  {
  }

  /** Every pixel of `inner` lies in `outer`. */
  predicate Covers(outer: Box, inner: Box) {
    outer.left <= inner.left && inner.right <= outer.right && outer.top <= inner.top && inner.bottom <= outer.bottom
  }

  /** Where draw.text at the origin puts the glyphs: the measured box shifted by the origin. */
  function GlyphBox(p: Placement, bb: TextBox): Box {
    Box(p.x + bb.left, p.y + bb.top, p.x + bb.right, p.y + bb.bottom)
  }

  /**
   * The layout uses only the bbox's width and height, but the glyphs are drawn
   * at the bbox's own offsets from the origin: they sit `left` px further
   * right and `top` px further down than the measured box, and stay on the
   * background only when those offsets are within the 10 px and 5 px padding.
   */
  lemma GlyphsOnBackgroundIff(w: nat, h: nat, bb: TextBox)
    ensures var p := Place(w, h, bb.right - bb.left, bb.bottom - bb.top);
      GlyphBox(p, bb).right == w - 20 + bb.left && GlyphBox(p, bb).bottom == h - 20 + bb.top
    ensures var p := Place(w, h, bb.right - bb.left, bb.bottom - bb.top);
      Covers(p.background, GlyphBox(p, bb)) <==> -10 <= bb.left <= 10 && -5 <= bb.top <= 5
  {
  }

  /** The raster after draw.rectangle fills `box`, clipped to the raster, with `ink`. */
  function Filled(g: Grid<byte>, box: Box, ink: byte): (r: Grid<byte>)
    ensures SameShape(r, g)
    ensures forall i, j :: 0 <= i < |g| && 0 <= j < |g[i]| && InBox(box, j, i) ==> r[i][j] == ink
    ensures forall i, j :: 0 <= i < |g| && 0 <= j < |g[i]| && !InBox(box, j, i) ==> r[i][j] == g[i][j]
  {
    seq(|g|, i requires 0 <= i < |g| =>
      seq(|g[i]|, j requires 0 <= j < |g[i]| => if InBox(box, j, i) then ink else g[i][j]))
  }

  /** The image buffer read as rows: the raster Image.fromarray and np.array convert between. */
  ghost function Rows(a: array2<byte>): (g: Grid<byte>)
    reads a
    ensures HasShape(g, a.Length0, a.Length1)
    ensures forall i, j :: 0 <= i < a.Length0 && 0 <= j < a.Length1 ==> g[i][j] == a[i, j]
  {
    seq(a.Length0, i requires 0 <= i < a.Length0 reads a =>
      seq(a.Length1, j requires 0 <= j < a.Length1 reads a => a[i, j]))
  }

  /** draw.rectangle on the image buffer in place: the buffer ends up as the value form `Filled` of its old contents. */
  method FillRect(a: array2<byte>, box: Box, ink: byte)
    modifies a
    ensures Rows(a) == Filled(old(Rows(a)), box, ink)
  {
    ghost var before := Rows(a);
    var top := if box.top < 0 then 0 else box.top;
    var bottom := if box.bottom < a.Length0 then box.bottom else a.Length0 - 1;
    var left := if box.left < 0 then 0 else box.left;
    var right := if box.right < a.Length1 then box.right else a.Length1 - 1;
    var i := top;
    while i <= bottom
      invariant top <= i
      invariant forall r, c :: 0 <= r < a.Length0 && 0 <= c < a.Length1 ==>
        a[r, c] == if InBox(box, c, r) && r < i then ink else old(a[r, c])
    {
      var j := left;
      while j <= right
        invariant left <= j
        invariant forall r, c :: 0 <= r < a.Length0 && 0 <= c < a.Length1 ==>
          a[r, c] == if InBox(box, c, r) && (r < i || (r == i && c < j)) then ink else old(a[r, c])
      {
        a[i, j] := ink;
        j := j + 1;
      }
      i := i + 1;
    }
    ghost var after, filled := Rows(a), Filled(before, box, ink);
    forall r | 0 <= r < a.Length0
      ensures after[r] == filled[r]
    {
      assert |after[r]| == |filled[r]| == a.Length1;
      forall c | 0 <= c < a.Length1
        ensures after[r][c] == filled[r][c]
      {
        assert after[r][c] == a[r, c];
      }
    }
  }

  /** The colours add_watermark passes: RGBA white at alpha 200 for the box, RGB grey for the text. */
  const BoxFill: Colour := [255, 255, 255, 200]
  const TextFill: Colour := [150, 150, 150]

  /**
   * Measure the label, fill the background box with `boxFill`, draw the label
   * on top with `textFill`; fails where Pillow refuses either colour, the box's first.
   */
  function Watermarked(lib: Library, image: Grid<byte>, text: string, boxFill: Colour, textFill: Colour): (r: Result<Grid<byte>>)
    ensures r.Ok? <==> lib.ink(boxFill).Ok? && lib.ink(textFill).Ok?
    ensures lib.ink(boxFill).Err? ==> r == Err(lib.ink(boxFill).error)
  {
    var h, w := Height(image), Width(image);
    var size := FontSize(w, h);
    var bb := lib.textBox(text, size);
    var p := Place(w, h, bb.right - bb.left, bb.bottom - bb.top);
    var boxInk :- lib.ink(boxFill);
    var textInk :- lib.ink(textFill);
    Ok(lib.drawText(Filled(image, p.background, boxInk), p.x, p.y, text, size, textInk))
  }

  /** add_watermark as written, with the colour tuples of main.py:59 and main.py:63. */
  function AddWatermark(lib: Library, image: Grid<byte>, text: string): Result<Grid<byte>> {
    Watermarked(lib, image, text, BoxFill, TextFill)
  }

  /** On a single-band mask Pillow refuses the box's four-element colour, so add_watermark always fails. */
  lemma WatermarkRejectedOnMasks(lib: Library, image: Grid<byte>, text: string)
    requires SingleBandInk(lib)
    ensures AddWatermark(lib, image, text) == Err(InkRejected)
  {
    assert |BoxFill| == 4;
  }

  /** The single-sample colours a mode "L" image accepts: white for the box, grey 150 for the text. */
  const MaskBoxFill: Colour := [255]
  const MaskTextFill: Colour := [150]

  /** add_watermark with colours a single-band mask accepts: it succeeds wherever Pillow converts single samples. */
  function AddWatermarkOnMask(lib: Library, image: Grid<byte>, text: string): (r: Result<Grid<byte>>)
    ensures SingleBandInk(lib) ==> r.Ok?
  {
    Watermarked(lib, image, text, MaskBoxFill, MaskTextFill)
  }

  /** With single-sample colours the box is filled white and the label drawn in grey 150 at the computed origin. */
  lemma MaskWatermarkDrawn(lib: Library, image: Grid<byte>, text: string)
    requires SingleBandInk(lib)
    ensures var size := FontSize(Width(image), Height(image));
      var bb := lib.textBox(text, size);
      var p := Place(Width(image), Height(image), bb.right - bb.left, bb.bottom - bb.top);
      AddWatermarkOnMask(lib, image, text) == Ok(lib.drawText(Filled(image, p.background, 255), p.x, p.y, text, size, 150))
  {
    assert lib.ink([255]) == Ok(255 as byte);
    assert lib.ink([150]) == Ok(150 as byte);
  }

  /** The watermarked raster has the size of the one it was drawn on. */
  lemma WatermarkKeepsShape(lib: Library, image: Grid<byte>, text: string, boxFill: Colour, textFill: Colour)
    requires KeepsShape(lib) && IsRect(image)
    ensures Watermarked(lib, image, text, boxFill, textFill).Ok? ==>
      HasShape(Watermarked(lib, image, text, boxFill, textFill).value, Height(image), Width(image))
  {
    if lib.ink(boxFill).Ok? {
      var h, w := Height(image), Width(image);
      var size := FontSize(w, h);
      var bb := lib.textBox(text, size);
      var p := Place(w, h, bb.right - bb.left, bb.bottom - bb.top);
      var boxed := Filled(image, p.background, lib.ink(boxFill).value);
      SameShapeKeepsShape(boxed, image, h, w);
      ShapeIsRect(boxed, h, w);
    }
  }
}
