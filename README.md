# Coloring-book line-art pipeline, modelled in Dafny

This project models the logic of the coloring-book service's `ImageProcessor` (`main.py`). The service turns a photo into black-and-white line art in one of three styles (simple, detailed, cartoon) and can stamp a small watermark on the result. The service does almost all pixel work through OpenCV and Pillow. The model treats those calls as opaque functions. It states the logic the service writes itself, with integer arithmetic where the service uses floating point (see "## Left out"):

- **Style dispatch** (`styles.dfy`). A free-form style name becomes a closed `Style`. Every name other than `"simple"` and `"detailed"` selects cartoon, and `"cartoon"` is the default name.
- **Per-style parameter table** (`styles.dfy`). `ConfigOf` is one immutable `StyleConfig` per style. It holds the width cap, median size, adaptive-threshold method, block size and C, the morphology kernel and the extra dilations.
- **Resize rule** (`resize.dfy`). An image is resized only when it is wider than the cap. The new size is `width*cap/width` by `height*cap/width`, truncated.
- **Pixel combinators** (`pixels.dfy`). These are `cv2.bitwise_not` (v ↦ 255 − v) and `cv2.bitwise_and` over rasters of 8-bit samples.
- **Watermark layout** (`watermark.dfy`). This covers the font size, the text origin and the padded background box. The box fill is given both as a value (`Filled`) and as an in-place fill of a 2-D array (`FillRect`).
- **Pipelines and requests** (`pipeline.dfy`). Each style runs its stages in the order the source calls them, and every style ends with the inversion. A request picks the pipeline by name and watermarks only when its flag is set.

The OpenCV and Pillow calls are fields of the `Backend.Library` record: resize, bilateral filter, grey conversion, median and Gaussian blur, adaptive threshold, Canny, close, dilate, text measurement, text drawing, and Pillow's conversion of a fill colour to a sample (`ink`), which may refuse the colour. The lemmas never assume anything about these calls. Where a proof needs a property of the library, the lemma requires it through one of three predicates:

- `KeepsShape`: each stage returns a raster of its input's size, and resize returns the requested size.
- `MasksBinary`: the binary threshold and Canny return {0,255} masks, and morphology keeps a {0,255} mask binary.
- `SingleBandInk`: the ink conversion of a single-band (mode "L") image, which is what `Image.fromarray` makes of a 2-D uint8 mask. An int or a one-element tuple gives that sample, and any other tuple is refused.

Two facts about the code that the model keeps as written:

- The resize rule truncates both sides with no lower bound, so a very wide image can get height 0 (see Findings).
- The font size uses floor division, `min(w, h) // 30`.

## Model

| member | source | states |
|---|---|---|
| Styles.StyleOf | main.py:221-226 | maps a style name to the pipeline the if/elif chain runs |
| Styles.DefaultStyleName | main.py:208 | the style a request gets when it names none: "cartoon", as also at main.py:253 |
| Styles.DefaultWatermark | main.py:209 | a request is watermarked unless it says otherwise, as also at main.py:254 |
| Styles.DispatchFallsBackToCartoon | main.py:221-226 | "simple" selects simple and "detailed" selects detailed. Every other name selects cartoon, so dispatch is total. The default name "cartoon" selects cartoon |
| Styles.NameOf | main.py:202 | the three style names the service advertises |
| Styles.NameRoundTrip | main.py:202 | each advertised style name selects its own style |
| Styles.ConfigOf | main.py:68-191 | the per-style constants. Every threshold block size and median size is odd and ≥ 3, every kernel is ≥ 2, and every cap is ≥ 800 |
| Styles.CapsOrdered | main.py:75-163 | the width caps are ordered simple 800 < cartoon 1000 < detailed 1200 |
| Styles.CoarsenessOrdered | main.py:85-186 | median size, block size, C and extra dilations all decrease strictly from simple to cartoon to detailed, and detailed does no extra dilation |
| Resize.TargetSize | main.py:74-79 | the target size as the code computes it: `width*cap/width` by `height*cap/width` when the width exceeds the cap |
| Resize.TargetUnchangedIffFits | main.py:75 | the size is left unchanged exactly when width ≤ cap |
| Resize.TargetNeverUpscales | main.py:114-119 | the new width is ≤ cap and ≤ the old width, and the new height is ≤ the old height. When resizing, the new width is exactly the cap |
| Resize.TargetKeepsAspect | main.py:76-78 | when resizing, new height · width ≤ height · cap < (new height + 1) · width. So the new height is height·cap/width truncated |
| Resize.TargetHeightZeroIff | main.py:158-163 | when resizing, the new height is 0 exactly when height · cap < width |
| Resize.WideSliverTargetsZeroHeight | main.py:74-79 | a 100000×1 image under the 800 cap gets the target 800×0 |
| Resize.CheckedTarget | main.py:115-119 | the corrected rule fails with DegenerateImage exactly when the truncated height would be 0. Otherwise it returns the same target, with both sides positive for a non-empty image |
| Pixels.Not | main.py:103 | one sample of bitwise_not is the bitwise complement, equal to 255 − v. It maps {0,255} to {0,255} and nothing else there |
| Pixels.InvertRow | main.py:147 | a row of bitwise_not has the row's length, and each sample is the complement of the input sample |
| Pixels.Invert | main.py:189 | bitwise_not keeps the raster's shape and complements every sample |
| Pixels.InvertInvolutive | main.py:103 | inverting twice returns the raster exactly |
| Pixels.InvertKeepsShape | main.py:147 | inversion keeps the dimensions |
| Pixels.InvertBinaryIff | main.py:189 | a raster is a {0,255} mask exactly when its inversion is |
| Pixels.AndPx | main.py:140 | one sample of bitwise_and is ≤ both inputs. On {0,255} inputs it is binary, and it is 255 iff both inputs are 255 |
| Pixels.AndRow | main.py:140 | a row of bitwise_and has the rows' length and combines the samples position by position |
| Pixels.And | main.py:140 | bitwise_and keeps the shape, each sample is the bitwise AND of the two input samples, and it is pointwise ≤ each input |
| Pixels.AndCommutative | main.py:140 | bitwise_and of two same-sized rasters is commutative |
| Pixels.AndOfMasks | main.py:140 | the AND of two {0,255} masks is a {0,255} mask, and a pixel is 255 iff it is 255 in both masks |
| Watermark.FontSize | main.py:39 | the font size is ≥ 20. It is exactly 20 when the shorter side is < 630 px, and otherwise it is the shorter side floor-divided by 30 |
| Watermark.FontSizeMonotone | main.py:39 | the font size does not shrink when the image grows |
| Watermark.Place | main.py:49-60 | the text box ends 20 px inside the right and bottom edges. The background is the text box padded by 10 px left/right and 5 px top/bottom, ending at x = w−10, y = h−15. The origin and the box stay non-negative exactly when the image is large enough, because nothing else bounds them |
| Watermark.TextInsideBackground | main.py:57-58 | every pixel of the text box lies in the background box |
| Watermark.Filled | main.py:57-60 | the filled raster keeps its shape. Pixels in the (inclusive) box get the fill value, and all others are unchanged |
| Watermark.GlyphsOnBackgroundIff | main.py:49-63 | the drawn glyphs end at x = w−20+left, y = h−20+top of the text bounding box, and lie on the background exactly when −10 ≤ left ≤ 10 and −5 ≤ top ≤ 5 |
| Watermark.FillRect | main.py:57-60 | filling the box in place, clipped to the array, leaves the buffer equal to `Filled` of its old contents: the fill value inside the box, every pixel outside unchanged |
| Watermark.Label | main.py:31 | the label add_watermark draws when the caller passes none, "@cat"; both endpoints rely on it (main.py:230, main.py:266) |
| Watermark.Watermarked | main.py:31-65 | measures the label at the computed font size, fills the background box and draws the label at the computed origin. It succeeds exactly when Pillow accepts both fill colours, and a refused box colour is the failure reported |
| Watermark.AddWatermark | main.py:31-65 | add_watermark as written, with the box colour (255, 255, 255, 200) and the text colour (150, 150, 150) |
| Watermark.WatermarkRejectedOnMasks | main.py:57-60 | on a single-band mask Pillow refuses the four-element box colour, so add_watermark fails on every input |
| Watermark.AddWatermarkOnMask | main.py:57-63 | with single-sample colours, 255 for the box and 150 for the text, the watermark succeeds on every mask |
| Watermark.MaskWatermarkDrawn | main.py:57-63 | with single-sample colours, the result is the label drawn in grey 150 at the computed origin over the box filled with 255 |
| Watermark.WatermarkKeepsShape | main.py:33-65 | given shape-preserving text drawing, a successful watermark keeps the input's size, whatever the colours |
| Pipeline.Resized | main.py:74-79 | the resize stage as written: cv2.resize to the target size only when wider than the cap. Its `Err(DegenerateImage)` stands for the exception cv2.resize raises on a zero-height target, so the pipeline fails wherever the code's exact-arithmetic target has height 0. The float rounding of main.py:76-78 can fail on further sizes (see "## Left out") |
| Pipeline.Morphology | main.py:98-100 | close with the style's square kernel, then dilate with it for the style's extra iterations; no dilate call when there are none (main.py:143-144) |
| Pipeline.SimpleLines | main.py:70-100 | the simple pipeline up to the inversion, in the source's stage order |
| Pipeline.DetailedLines | main.py:110-144 | the detailed pipeline up to the inversion. Masks of different sizes fail as bitwise_and does |
| Pipeline.CartoonLines | main.py:154-186 | the cartoon pipeline up to the inversion |
| Pipeline.ProcessSimple | main.py:68-105 | process_simple: the simple mask, then bitwise_not |
| Pipeline.ProcessDetailed | main.py:108-149 | process_detailed: the detailed mask, then bitwise_not |
| Pipeline.ProcessCartoon | main.py:152-191 | process_cartoon: the cartoon mask, then bitwise_not |
| Pipeline.ProcessStyle | main.py:221-226 | runs the pipeline of the selected style |
| Pipeline.Process | main.py:220-230 | one request: the dispatch by name, then the watermark when the flag is set. A failed watermark fails the request |
| Pipeline.EveryStyleEndsInverted | main.py:102-105 | every style succeeds exactly when its mask does, and inverting its output gives back that mask exactly |
| Pipeline.OutputIsBinary | main.py:68-191 | if thresholds and Canny give {0,255} masks and morphology keeps them binary, then every style's output is a {0,255} mask |
| Pipeline.ResizedShape | main.py:74-79 | the resize stage succeeds exactly when the checked rule does, and it yields a raster of the target size |
| Pipeline.OutputShape | main.py:68-191 | with shape-preserving stages, a style fails only on a degenerate target. Otherwise its output has the target size, no wider than the cap and never larger than the input |
| Pipeline.RequestOutputShape | main.py:264-266 | the raster handed to the encoder has the target size, with or without the watermark |
| Pipeline.UnknownStyleIsCartoon | main.py:257-262 | any name other than "simple" or "detailed" gives exactly the result of "cartoon", the default name |
| Pipeline.WatermarkOnlyWhenAsked | main.py:207-230 | with the flag false, the pipeline's output is exactly what is returned. With the flag true, the result is add_watermark of that output, and pipeline failures pass through unchanged. A request that leaves the flag at its default (`DefaultWatermark`, true) goes through add_watermark |
| Pipeline.WatermarkedRequestsFail | main.py:207-230 | with Pillow's single-band ink conversion, every request with the flag set fails, the default request included |

## Left out

- The HTTP layer is left out because it is I/O plumbing. This covers the FastAPI app, CORS, the `/` and `/health` endpoints, the 10 MiB size check, reading the upload, base64 decoding and encoding, response headers, timestamps and logging.
- `cv2.imdecode` and `cv2.imencode` are left out. The pipelines start from the decoded BGR raster and end with the raster handed to the encoder.
- The decode-failure path is left out because it is library behaviour plus exception plumbing. There, `imdecode` returns `None` and `.shape` then raises, which becomes HTTP 500 or an `{"error": …}` body.
- The OpenCV and Pillow internals are opaque `Library` functions, because their code is not part of this model and much of it uses floating point. This covers grey conversion, median, Gaussian and bilateral blur, adaptive threshold, Canny, resize interpolation, morphology, text measurement and text drawing. Facts about them appear only as lemma preconditions (`KeepsShape`, `MasksBinary`, `SingleBandInk`).
- Resize.TargetSize: computes `cap/width` exactly in integer arithmetic. The source computes `scale = cap / width` as a Python float and truncates `width*scale` and `height*scale`, so either side can land one below the exact quotient. IEEE rounding is not modelled.
- Pipeline.Resized: fails only where the exact-arithmetic height is 0 (`h·cap < w`, as in `Resize.TargetHeightZeroIff`, `Resize.CheckedTarget` and `Pipeline.OutputShape`). Under float truncation the height can also drop from 1 to 0, so some images the model resizes make `cv2.resize` raise in the source; for example, 39200×49 under the simple cap 800 gives `49*(800/39200) = 0.9999999999999999`, hence height 0. The model's failure set is therefore a subset of the source's.
- Font loading and its bare `except` fallback to the default font are left out because they depend on the host's fonts. The fallback changes what both `textBox` and `drawText` return: the default font has other glyphs and ignores the computed font size.
- Watermark.AddWatermark: whether Pillow accepts the colour tuples of main.py:59 and main.py:63 on a mode "L" image is up to the installed Pillow, so `ink` is a `Library` field. The failure of every watermarked request (`Pipeline.WatermarkedRequestsFail`) is proved only under `SingleBandInk`, which states the refusal of multi-element tuples. Where a Pillow accepts the tuples, the sample it writes is whatever `ink` returns, and alpha is not blended.
- Watermark.Place: places the background from the width and height of the text bounding box only, as main.py:49-58 does. `draw.text` draws the glyphs at the box's own offsets from the origin, so they stay on the background only when the box's left offset is within ±10 px and its top offset within ±5 px (`Watermark.GlyphsOnBackgroundIff`). A positive top offset also brings the glyphs closer than 20 px to the bottom edge. The offsets come from the font and are not bounded here.
- Watermark.AddWatermark: is stated on values. The in-place fill of the PIL image is modelled separately by `FillRect` over a 2-D array, and `Watermarked` uses the value form `Filled`, which `FillRect`'s contract equates with the buffer after the fill.
- Pipeline.Process: models both `/process` and `/process-base64`, because they run the same dispatch and watermark step. Two cases are left out: a non-boolean `watermark` in the base64 body, which is tested by Python truthiness, and a non-string `style`, which also falls to cartoon. It keeps add_watermark as written, with the colour tuples, so that a request fails where the source's does; `Watermark.AddWatermarkOnMask` is the corrected step and is not wired into it.

## Findings

| source | as written | input that shows it | evidently intended | confidence | as-written member | corrected member |
|---|---|---|---|---|---|---|
| main.py:74-79 | the new height is `int(height * cap / width)` with no lower bound, and the result goes straight to `cv2.resize` | a 100000×1 image with style "simple" gets the target 800×0, so `cv2.resize` rejects the zero size and the request fails with an OpenCV error | a degenerate target is rejected as a degenerate image before resizing | medium; not executed | Resize.TargetHeightZeroIff | Resize.CheckedTarget |
| main.py:57-63 | the background box is filled with the RGBA tuple (255, 255, 255, 200) and the text with the RGB tuple (150, 150, 150) on `Image.fromarray` of a 2-D uint8 mask, a single-band image | any request with the watermark flag set, including the default request: Pillow refuses a multi-element colour for a single-band image, so add_watermark raises and the request fails | a white box and grey text on the mask, given as single samples 255 and 150 | medium; not executed; rests on Pillow's ink conversion, which is not part of this model | Watermark.WatermarkRejectedOnMasks | Watermark.AddWatermarkOnMask |
