/**
 * The OpenCV and Pillow calls the pipelines make. Their code is not part of
 * this model, so each is an opaque function in a `Library` record; what the
 * proofs need of them is stated as predicates that lemmas require.
 */
module Backend {
  import opened Results
  import opened Pixels
  import opened Styles

  datatype Library = Library(
    resize: (Grid<Bgr>, nat, nat) -> Grid<Bgr>,                    // cv2.resize(img, (width, height))
    bilateralFilter: (Grid<Bgr>, nat, nat, nat) -> Grid<Bgr>,      // diameter, sigmaColor, sigmaSpace
    toGray: Grid<Bgr> -> Grid<byte>,                               // cv2.cvtColor(img, COLOR_BGR2GRAY)
    medianBlur: (Grid<byte>, nat) -> Grid<byte>,
    gaussianBlur: (Grid<byte>, nat) -> Grid<byte>,                 // square kernel, sigma 0
    adaptiveThreshold: (Grid<byte>, byte, AdaptiveMethod, nat, int) -> Grid<byte>, // maxValue, method, blockSize, C; THRESH_BINARY
    canny: (Grid<byte>, nat, nat) -> Grid<byte>,                   // low and high hysteresis thresholds
    morphClose: (Grid<byte>, nat) -> Grid<byte>,                   // MORPH_CLOSE with a k x k all-ones kernel
    dilate: (Grid<byte>, nat, nat) -> Grid<byte>,                  // k x k all-ones kernel, iterations
    textBox: (string, nat) -> TextBox,                             // draw.textbbox((0, 0), text) at a font size
    drawText: (Grid<byte>, int, int, string, nat, byte) -> Grid<byte>, // draw.text at (x, y) with a font size and a sample
    ink: Colour -> Result<byte>)                                   // Pillow's conversion of a fill colour for the mask's mode

  /** A fill colour as draw.rectangle and draw.text receive it: an int counts as a one-element tuple. */
  type Colour = seq<nat>

  /** The (left, top, right, bottom) box Pillow's textbbox reports for text anchored at (0, 0). */
  datatype TextBox = TextBox(left: int, top: int, right: int, bottom: int)

  /** Every stage returns a raster of the size it was given, and cv2.resize the size it was asked for. */
  ghost predicate KeepsShape(lib: Library) {
    && (forall img: Grid<Bgr>, w: nat, h: nat :: HasShape(lib.resize(img, w, h), h, w))
    && (forall img: Grid<Bgr>, d: nat, sc: nat, ss: nat ::
          IsRect(img) ==> HasShape(lib.bilateralFilter(img, d, sc, ss), Height(img), Width(img)))
    && (forall img: Grid<Bgr> :: IsRect(img) ==> HasShape(lib.toGray(img), Height(img), Width(img)))
    && (forall g: Grid<byte>, k: nat :: IsRect(g) ==> HasShape(lib.medianBlur(g, k), Height(g), Width(g)))
    && (forall g: Grid<byte>, k: nat :: IsRect(g) ==> HasShape(lib.gaussianBlur(g, k), Height(g), Width(g)))
    && (forall g: Grid<byte>, mx: byte, m: AdaptiveMethod, b: nat, c: int ::
          IsRect(g) ==> HasShape(lib.adaptiveThreshold(g, mx, m, b, c), Height(g), Width(g)))
    && (forall g: Grid<byte>, lo: nat, hi: nat :: IsRect(g) ==> HasShape(lib.canny(g, lo, hi), Height(g), Width(g)))
    && (forall g: Grid<byte>, k: nat :: IsRect(g) ==> HasShape(lib.morphClose(g, k), Height(g), Width(g)))
    && (forall g: Grid<byte>, k: nat, n: nat :: IsRect(g) ==> HasShape(lib.dilate(g, k, n), Height(g), Width(g)))
    && (forall g: Grid<byte>, x: int, y: int, t: string, s: nat, v: byte ::
          IsRect(g) ==> HasShape(lib.drawText(g, x, y, t, s, v), Height(g), Width(g)))
  }

  /**
   * Pillow's ink conversion for a single-band image, which is what
   * Image.fromarray makes of a 2-D uint8 mask: an int or a one-element tuple
   * gives that sample, and a tuple of any other length is refused.
   */
  ghost predicate SingleBandInk(lib: Library) {
    && (forall c: Colour :: |c| != 1 ==> lib.ink(c) == Err(InkRejected))
    && (forall v: nat :: v < 256 ==> lib.ink([v]) == Ok(v as byte))
  }

  /**
   * Binary thresholding with maxValue 255 and Canny produce {0,255} masks,
   * and the morphology of a {0,255} mask stays a {0,255} mask.
   */
  ghost predicate MasksBinary(lib: Library) {
    && (forall g: Grid<byte>, m: AdaptiveMethod, b: nat, c: int :: IsBinary(lib.adaptiveThreshold(g, 255, m, b, c)))
    && (forall g: Grid<byte>, lo: nat, hi: nat :: IsBinary(lib.canny(g, lo, hi)))
    && (forall g: Grid<byte>, k: nat :: IsBinary(g) ==> IsBinary(lib.morphClose(g, k)))
    && (forall g: Grid<byte>, k: nat, n: nat :: IsBinary(g) ==> IsBinary(lib.dilate(g, k, n)))
  }
}
