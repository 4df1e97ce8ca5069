/**
 * The three style pipelines of ImageProcessor (main.py:67-191) and the
 * request-level dispatch of /process and /process-base64 (main.py:220-230,
 * 256-266), from the decoded image to the raster handed to cv2.imencode.
 */
module Pipeline {
  import opened Results
  import opened Pixels
  import opened Styles
  import opened Resize
  import opened Backend
  import opened Watermark

  const GaussianKernel: nat := 5      // simple: GaussianBlur (5, 5), sigma 0
  const CannyLow: nat := 50           // detailed: Canny hysteresis thresholds
  const CannyHigh: nat := 150
  const BilateralDiameter: nat := 15  // cartoon: bilateralFilter(img, 15, 80, 80)
  const BilateralSigma: nat := 80

  /** Shrink to the width cap when wider, failing on a zero-sized target. */
  function Resized(lib: Library, img: Grid<Bgr>, cap: nat): Result<Grid<Bgr>> {
    var size :- CheckedTarget(Width(img), Height(img), cap);
    Ok(if Width(img) > cap then lib.resize(img, size.width, size.height) else img)
  }

  /** Close with the style's kernel, then the style's extra dilations, if any. */
  function Morphology(lib: Library, mask: Grid<byte>, cfg: StyleConfig): Grid<byte> {
    var closed := lib.morphClose(mask, cfg.kernelSize);
    if cfg.dilations == 0 then closed else lib.dilate(closed, cfg.kernelSize, cfg.dilations)
  }

  /** process_simple up to the inversion: heavy smoothing, mean threshold, thick strokes. */
  function SimpleLines(lib: Library, img: Grid<Bgr>): Result<Grid<byte>> {
    var cfg := ConfigOf(Simple);
    var small :- Resized(lib, img, cfg.maxWidth);
    var gray := lib.gaussianBlur(lib.medianBlur(lib.toGray(small), cfg.medianSize), GaussianKernel);
    var edges := lib.adaptiveThreshold(gray, 255, cfg.thresholdMethod, cfg.blockSize, cfg.c);
    Ok(Morphology(lib, edges, cfg))
  }

  /** process_detailed up to the inversion: Canny AND a Gaussian threshold, close only. */
  function DetailedLines(lib: Library, img: Grid<Bgr>): Result<Grid<byte>> {
    var cfg := ConfigOf(Detailed);
    var small :- Resized(lib, img, cfg.maxWidth);
    var gray := lib.medianBlur(lib.toGray(small), cfg.medianSize);
    var edges1 := lib.canny(gray, CannyLow, CannyHigh);
    var edges2 := lib.adaptiveThreshold(gray, 255, cfg.thresholdMethod, cfg.blockSize, cfg.c);
    if !SameShape(edges1, edges2) then Err(SizeMismatch)
    else Ok(Morphology(lib, And(edges1, edges2), cfg))
  }

  /** process_cartoon up to the inversion: bilateral smoothing of the colour image, mean threshold. */
  function CartoonLines(lib: Library, img: Grid<Bgr>): Result<Grid<byte>> {
    var cfg := ConfigOf(Cartoon);
    var small :- Resized(lib, img, cfg.maxWidth);
    var smooth := lib.bilateralFilter(small, BilateralDiameter, BilateralSigma, BilateralSigma);
    var gray := lib.medianBlur(lib.toGray(smooth), cfg.medianSize);
    var edges := lib.adaptiveThreshold(gray, 255, cfg.thresholdMethod, cfg.blockSize, cfg.c);
    Ok(Morphology(lib, edges, cfg))
  }

  function ProcessSimple(lib: Library, img: Grid<Bgr>): Result<Grid<byte>> {
    var edges :- SimpleLines(lib, img);
    Ok(Invert(edges))
  }

  function ProcessDetailed(lib: Library, img: Grid<Bgr>): Result<Grid<byte>> {
    var edges :- DetailedLines(lib, img);
    Ok(Invert(edges))
  }

  function ProcessCartoon(lib: Library, img: Grid<Bgr>): Result<Grid<byte>> {
    var edges :- CartoonLines(lib, img);
    Ok(Invert(edges))
  }

  /** The mask a style extracts, before inversion. */
  function Lines(lib: Library, s: Style, img: Grid<Bgr>): Result<Grid<byte>> {
    match s
    case Simple => SimpleLines(lib, img)
    case Detailed => DetailedLines(lib, img)
    case Cartoon => CartoonLines(lib, img)
  }

  /** The pipeline a style runs. */
  function ProcessStyle(lib: Library, s: Style, img: Grid<Bgr>): Result<Grid<byte>> {
    match s
    case Simple => ProcessSimple(lib, img)
    case Detailed => ProcessDetailed(lib, img)
    case Cartoon => ProcessCartoon(lib, img)
  }

  /** One request: pick the pipeline by name, then watermark when the flag is set. */
  function Process(lib: Library, style: string, img: Grid<Bgr>, watermark: bool): Result<Grid<byte>> {
    var result :- ProcessStyle(lib, StyleOf(style), img);
    if watermark then AddWatermark(lib, result, Label) else Ok(result)
  }

  /** Every style ends with the inversion: inverting its output gives back its mask exactly. */
  lemma EveryStyleEndsInverted(lib: Library, s: Style, img: Grid<Bgr>)
    ensures ProcessStyle(lib, s, img).Ok? <==> Lines(lib, s, img).Ok?
    ensures ProcessStyle(lib, s, img).Ok? ==>
      Invert(ProcessStyle(lib, s, img).value) == Lines(lib, s, img).value
  {
    if Lines(lib, s, img).Ok? {
      InvertInvolutive(Lines(lib, s, img).value);
    }
  }

  /** When thresholds and Canny give {0,255} masks and morphology keeps them so, every output is a {0,255} mask. */
  lemma OutputIsBinary(lib: Library, s: Style, img: Grid<Bgr>)
    requires MasksBinary(lib)
    ensures ProcessStyle(lib, s, img).Ok? ==> IsBinary(ProcessStyle(lib, s, img).value)
  {
    if Lines(lib, s, img).Ok? {
      var m := Lines(lib, s, img).value;
      if s == Detailed {
        var cfg := ConfigOf(Detailed);
        var small := Resized(lib, img, cfg.maxWidth).value;
        var gray := lib.medianBlur(lib.toGray(small), cfg.medianSize);
        var edges1 := lib.canny(gray, CannyLow, CannyHigh);
        var edges2 := lib.adaptiveThreshold(gray, 255, cfg.thresholdMethod, cfg.blockSize, cfg.c);
        AndOfMasks(edges1, edges2);
      }
      InvertBinaryIff(m);
    }
  }

  /** The resized image is the target size the rule picks, or the rule's failure. */
  lemma ResizedShape(lib: Library, img: Grid<Bgr>, cap: nat)
    requires KeepsShape(lib) && IsRect(img) && cap > 0
    ensures Resized(lib, img, cap).Ok? <==> CheckedTarget(Width(img), Height(img), cap).Ok?
    ensures Resized(lib, img, cap).Ok? ==>
      var t := TargetSize(Width(img), Height(img), cap);
      IsRect(Resized(lib, img, cap).value) &&
      Height(Resized(lib, img, cap).value) == t.height && Width(Resized(lib, img, cap).value) == t.width
  {
    var w, h := Width(img), Height(img);
    if CheckedTarget(w, h, cap).Ok? && w > cap {
      var t := TargetSize(w, h, cap);
      TargetNeverUpscales(w, h, cap);
      ShapeIsRect(lib.resize(img, t.width, t.height), t.height, t.width);
    }
  }

  /**
   * With shape-preserving stages, a style fails only on a degenerate resize
   * target, and otherwise returns a raster of exactly the target size: no
   * wider than the style's cap and never larger than the input.
   */
  lemma OutputShape(lib: Library, s: Style, img: Grid<Bgr>)
    requires KeepsShape(lib) && IsRect(img)
    ensures var cap := ConfigOf(s).maxWidth;
      ProcessStyle(lib, s, img).Err? <==> Width(img) > cap && Height(img) * cap < Width(img)
    ensures var t := TargetSize(Width(img), Height(img), ConfigOf(s).maxWidth);
      ProcessStyle(lib, s, img).Ok? ==>
        HasShape(ProcessStyle(lib, s, img).value, t.height, t.width) &&
        t.width <= ConfigOf(s).maxWidth && t.width <= Width(img) && t.height <= Height(img)
  {
    var cfg := ConfigOf(s);
    var w, h := Width(img), Height(img);
    var t := TargetSize(w, h, cfg.maxWidth);
    TargetNeverUpscales(w, h, cfg.maxWidth);
    ResizedShape(lib, img, cfg.maxWidth);
    if Resized(lib, img, cfg.maxWidth).Ok? {
      var small := Resized(lib, img, cfg.maxWidth).value;
      var mask: Grid<byte>;
      match s {
        case Simple =>
          var gray := lib.gaussianBlur(lib.medianBlur(lib.toGray(small), cfg.medianSize), GaussianKernel);
          mask := lib.adaptiveThreshold(gray, 255, cfg.thresholdMethod, cfg.blockSize, cfg.c);
        case Detailed =>
          var gray := lib.medianBlur(lib.toGray(small), cfg.medianSize);
          var edges1 := lib.canny(gray, CannyLow, CannyHigh);
          var edges2 := lib.adaptiveThreshold(gray, 255, cfg.thresholdMethod, cfg.blockSize, cfg.c);
          assert SameShape(edges1, edges2);
          mask := And(edges1, edges2);
          SameShapeKeepsShape(mask, edges1, t.height, t.width);
        case Cartoon =>
          var smooth := lib.bilateralFilter(small, BilateralDiameter, BilateralSigma, BilateralSigma);
          var gray := lib.medianBlur(lib.toGray(smooth), cfg.medianSize);
          mask := lib.adaptiveThreshold(gray, 255, cfg.thresholdMethod, cfg.blockSize, cfg.c);
      }
      assert HasShape(mask, t.height, t.width);
      var m := Lines(lib, s, img).value;
      assert m == Morphology(lib, mask, cfg);
      InvertKeepsShape(m, t.height, t.width);
    }
  }

  /** Any name other than "simple" or "detailed" gets exactly the cartoon result, as does the default name. */
  lemma UnknownStyleIsCartoon(lib: Library, style: string, img: Grid<Bgr>, watermark: bool)
    requires style != "simple" && style != "detailed"
    ensures Process(lib, style, img, watermark) == Process(lib, DefaultStyleName, img, watermark)
    ensures Process(lib, style, img, watermark) == Process(lib, NameOf(Cartoon), img, watermark)
  {
  }

  /** The watermark is drawn only when the flag is set; without it the pipeline's output is what gets encoded. */
  lemma WatermarkOnlyWhenAsked(lib: Library, style: string, img: Grid<Bgr>)
    ensures Process(lib, style, img, false) == ProcessStyle(lib, StyleOf(style), img)
    ensures ProcessStyle(lib, StyleOf(style), img).Ok? ==>
      Process(lib, style, img, true) == AddWatermark(lib, ProcessStyle(lib, StyleOf(style), img).value, Label)
    ensures ProcessStyle(lib, StyleOf(style), img).Err? ==> Process(lib, style, img, true) == ProcessStyle(lib, StyleOf(style), img)
    ensures ProcessStyle(lib, StyleOf(style), img).Ok? ==>
      Process(lib, style, img, DefaultWatermark) == AddWatermark(lib, ProcessStyle(lib, StyleOf(style), img).value, Label)
  {
  }

  /**
   * With Pillow's single-band ink conversion every request that asks for the
   * watermark fails, the default request included; only watermark=false succeeds.
   */
  lemma WatermarkedRequestsFail(lib: Library, style: string, img: Grid<Bgr>)
    requires SingleBandInk(lib)
    ensures Process(lib, style, img, true).Err?
    ensures Process(lib, style, img, DefaultWatermark).Err?
  {
    var r := ProcessStyle(lib, StyleOf(style), img);
    if r.Ok? {
      WatermarkRejectedOnMasks(lib, r.value, Label);
    }
  }

  /** The raster handed to the encoder has the resize target's size, watermark or not. */
  lemma RequestOutputShape(lib: Library, style: string, img: Grid<Bgr>, watermark: bool)
    requires KeepsShape(lib) && IsRect(img)
    ensures var t := TargetSize(Width(img), Height(img), ConfigOf(StyleOf(style)).maxWidth);
      Process(lib, style, img, watermark).Ok? ==> HasShape(Process(lib, style, img, watermark).value, t.height, t.width)
  {
    var s := StyleOf(style);
    var t := TargetSize(Width(img), Height(img), ConfigOf(s).maxWidth);
    OutputShape(lib, s, img);
    var r := ProcessStyle(lib, s, img);
    if r.Ok? && watermark {
      assert t.height > 0 || t.width == 0;
      ShapeIsRect(r.value, t.height, t.width);
      WatermarkKeepsShape(lib, r.value, Label, BoxFill, TextFill);
    }
  }
}
