/**
 * The size rule each style applies before any filtering (main.py:74-79,
 * 114-119, 158-163): shrink to the style's width cap only when the image is
 * wider than the cap, scaling both sides by cap / width and truncating.
 */
module Resize {
  import opened Results

  datatype Size = Size(width: nat, height: nat)

  /**
   * The target size as the code computes it: int(width * scale) and
   * int(height * scale) with scale = cap / width, here in exact arithmetic.
   */
  function TargetSize(w: nat, h: nat, cap: nat): Size {
    if w > cap then Size((w * cap) / w, (h * cap) / w) else Size(w, h)
  }

  lemma MulDivCancel(a: nat, b: nat)
    requires b > 0
    ensures (b * a) / b == a
  {
    var q, r := (b * a) / b, (b * a) % b;
    assert b * a == b * q + r;
    assert b * (a - q) == r;
    assert a - q >= 1 ==> b * (a - q) >= b;
    assert a - q <= -1 ==> b * (q - a) >= b;
  }

  lemma DivBelow(n: nat, d: nat, bound: nat)
    requires d > 0 && n <= bound * d
    ensures n / d <= bound
  {
    var q := n / d;
    assert q * d <= n;
    assert q > bound ==> q * d >= (bound + 1) * d;
  }

  /** An image is left alone exactly when it is no wider than the cap. */
  lemma TargetUnchangedIffFits(w: nat, h: nat, cap: nat)
    ensures TargetSize(w, h, cap) == Size(w, h) <==> w <= cap
  {
    if w > cap {
      MulDivCancel(cap, w);
    }
  }

  /** Never upscales: the width ends at most at the cap and neither side grows. */
  lemma TargetNeverUpscales(w: nat, h: nat, cap: nat)
    ensures TargetSize(w, h, cap).width <= cap
    ensures TargetSize(w, h, cap).width <= w && TargetSize(w, h, cap).height <= h
    ensures w > cap ==> TargetSize(w, h, cap).width == cap
  {
    if w > cap {
      MulDivCancel(cap, w);
      assert w * cap == cap * w;
      assert h * w - h * cap == h * (w - cap) >= 0;
      DivBelow(h * cap, w, h);
    }
  }

  /** When it resizes, the new height is height * cap / width truncated toward zero. */
  lemma TargetKeepsAspect(w: nat, h: nat, cap: nat)
    requires w > cap
    ensures TargetSize(w, h, cap).height * w <= h * cap < (TargetSize(w, h, cap).height + 1) * w
  {
  }

  /** The height rounds down to 0 exactly when the image is more than cap times wider than tall. */
  lemma TargetHeightZeroIff(w: nat, h: nat, cap: nat)
    requires w > cap
    ensures TargetSize(w, h, cap).height == 0 <==> h * cap < w
  {
    var q := TargetSize(w, h, cap).height;
    TargetKeepsAspect(w, h, cap);
    if q > 0 {
      assert q * w >= w;
    }
  }

  /** A 100000 x 1 image under the 800-pixel cap is asked to become 800 x 0. */
  lemma WideSliverTargetsZeroHeight()
    ensures TargetSize(100000, 1, 800) == Size(800, 0)
  {
  }

  /**
   * The resize rule with the degenerate case rejected: a target of height 0
   * becomes DegenerateImage instead of being handed to cv2.resize.
   */
  function CheckedTarget(w: nat, h: nat, cap: nat): (r: Result<Size>)
    ensures r.Err? <==> w > cap && h * cap < w
    ensures r.Ok? ==> r.value == TargetSize(w, h, cap)
    ensures r.Ok? && w > 0 && h > 0 ==> r.value.width > 0 && r.value.height > 0
    ensures r.Err? ==> r.error == DegenerateImage
  {
    var t := TargetSize(w, h, cap);
    if w > cap then
      TargetHeightZeroIff(w, h, cap);
      TargetNeverUpscales(w, h, cap);
      if t.height == 0 then Err(DegenerateImage) else Ok(t)
    else
      Ok(t)
  }
}
