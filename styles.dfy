/**
 * Style selection and the constants each style's pipeline hard-codes
 * (main.py, ImageProcessor.process_simple / process_detailed / process_cartoon).
 */
module Styles {

  datatype Style = Simple | Detailed | Cartoon

  /** The style a request gets when it names none. */
  const DefaultStyleName: string := "cartoon"

  /** A request is watermarked when it does not say otherwise. */
  const DefaultWatermark: bool := true

  /** The if/elif dispatch of the endpoints: every other string selects cartoon. */
  function StyleOf(name: string): Style {
    if name == "simple" then Simple
    else if name == "detailed" then Detailed
    else Cartoon
  }

  /** The names the service advertises for its styles. */
  function NameOf(s: Style): string {
    match s
    case Simple => "simple"
    case Detailed => "detailed"
    case Cartoon => "cartoon"
  }

  /** Dispatch is total, only two names escape the cartoon fallback, and the default is cartoon. */
  lemma DispatchFallsBackToCartoon(name: string)
    ensures StyleOf(name) == Simple <==> name == "simple"
    ensures StyleOf(name) == Detailed <==> name == "detailed"
    ensures StyleOf(name) == Cartoon <==> name != "simple" && name != "detailed"
    ensures StyleOf(DefaultStyleName) == Cartoon
  {
  }

  /** Each advertised name selects its own style. */
  lemma NameRoundTrip(s: Style)
    ensures StyleOf(NameOf(s)) == s
  {
  }

  /** cv2.ADAPTIVE_THRESH_MEAN_C or cv2.ADAPTIVE_THRESH_GAUSSIAN_C. */
  datatype AdaptiveMethod = MeanC | GaussianC

  /** The per-style constants: width cap, median size, adaptive threshold, morphology. */
  datatype StyleConfig = StyleConfig(
    maxWidth: nat,
    medianSize: nat,
    thresholdMethod: AdaptiveMethod,
    blockSize: nat,
    c: int,
    kernelSize: nat,      // side of the square all-ones structuring element
    dilations: nat)       // extra cv2.dilate iterations after the close

  /** The parameter table; its contract states what OpenCV demands of the constants. */
  function ConfigOf(s: Style): (cfg: StyleConfig)
    ensures cfg.blockSize >= 3 && cfg.blockSize % 2 == 1
    ensures cfg.medianSize >= 3 && cfg.medianSize % 2 == 1
    ensures cfg.kernelSize >= 2
    ensures cfg.maxWidth >= 800
  {
    match s
    case Simple => StyleConfig(800, 7, MeanC, 15, 12, 3, 2)
    case Detailed => StyleConfig(1200, 3, GaussianC, 7, 5, 2, 0)
    case Cartoon => StyleConfig(1000, 5, MeanC, 9, 8, 2, 1)
  }

  /** Simple keeps the smallest image, detailed the largest, cartoon sits between. */
  lemma CapsOrdered()
    ensures ConfigOf(Simple).maxWidth < ConfigOf(Cartoon).maxWidth < ConfigOf(Detailed).maxWidth
  {
  }

  /** Smoothing, threshold neighbourhood, bias and thickening all shrink from simple to cartoon to detailed. */
  lemma CoarsenessOrdered()
    ensures ConfigOf(Simple).medianSize > ConfigOf(Cartoon).medianSize > ConfigOf(Detailed).medianSize
    ensures ConfigOf(Simple).blockSize > ConfigOf(Cartoon).blockSize > ConfigOf(Detailed).blockSize
    ensures ConfigOf(Simple).c > ConfigOf(Cartoon).c > ConfigOf(Detailed).c
    ensures ConfigOf(Simple).dilations > ConfigOf(Cartoon).dilations > ConfigOf(Detailed).dilations == 0
    ensures ConfigOf(Simple).kernelSize >= ConfigOf(Cartoon).kernelSize == ConfigOf(Detailed).kernelSize
  {
  }
}
