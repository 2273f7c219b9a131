/** The resize arithmetic of thumbnail.go, in int64. */
module Thumbnail {
  import opened Common

  /** A product of two ints. */
  function Mul(a: int, b: int): int {
    Wrap64(a * b)
  }

  /** Go's division truncates. */
  function Quo(a: int, b: int): int
    requires b > 0
  {
    if a >= 0 then a / b else -((-a) / b)
  }

  function Max(a: int, b: int): int {
    if a < b then b else a
  }

  function Min(a: int, b: int): int {
    if b < a then b else a
  }

  /** The largest size in the source's proportions that fits maxW x maxH. */
  function Aspect(srcW: int, srcH: int, maxW: int, maxH: int): (int, int)
    requires srcW > 0 && srcH > 0
  {
    if Mul(maxW, srcH) < Mul(maxH, srcW) then (maxW, Max(Quo(Mul(maxW, srcH), srcW), 1))
    else (Max(Quo(Mul(maxH, srcW), srcH), 1), maxH)
  }

  datatype Rect = Rect(x0: int, y0: int, x1: int, y1: int)

  /** Scale to cover w x h, then cut that out of the middle. */
  function CropBox(srcW: int, srcH: int, w: int, h: int): (int, int, Rect)
    requires srcW > 0 && srcH > 0
  {
    if Mul(w, srcH) > Mul(h, srcW) then
      var scaledH := Quo(Mul(w, srcH), srcW);
      var top := Quo(scaledH - h, 2);
      (w, scaledH, Rect(0, top, w, h + top))
    else
      var scaledW := Quo(Mul(h, srcW), srcH);
      var left := Quo(scaledW - w, 2);
      (scaledW, h, Rect(left, 0, w + left, h))
  }

  /** Synapse never upscales. */
  function ScaledSize(srcW: int, srcH: int, maxW: int, maxH: int): (int, int)
    requires srcW > 0 && srcH > 0
  {
    var (w, h) := Aspect(srcW, srcH, maxW, maxH);
    (Min(srcW, w), Min(srcH, h))
  }

  /** Sizes are positive and their products fit in an int64. */
  predicate Sizes(srcW: int, srcH: int, w: int, h: int) {
    srcW > 0 && srcH > 0 && w > 0 && h > 0 && w * srcH < TWO63 && h * srcW < TWO63
  }

  lemma Floor(a: int, x: int, q: int)
    requires a >= 0 && x > 0 && q == a / x
    ensures q * x <= a < q * x + x
  {
  }

  lemma Products(srcW: int, srcH: int, w: int, h: int)
    requires Sizes(srcW, srcH, w, h)
    ensures Mul(w, srcH) == w * srcH > 0 && Mul(h, srcW) == h * srcW > 0
  {
    assert w * srcH > 0 && h * srcW > 0;
  }

  /** A product is large enough to leave at least k once divided. */
  lemma AtLeast(a: int, k: int, x: int)
    requires x > 0 && k >= 0 && a >= k * x
    ensures a / x >= k
  {
    Floor(a, x, a / x);
    if a / x < k {
      Grow(a / x + 1, k, x);
    }
  }

  lemma AtMost(a: int, k: int, x: int)
    requires x > 0 && k >= 0 && 0 <= a <= k * x
    ensures a / x <= k
  {
    Floor(a, x, a / x);
    if a / x > k {
      Grow(k + 1, a / x, x);
    }
  }

  lemma Grow(i: int, j: int, x: int)
    requires i <= j && x > 0
    ensures i * x <= j * x
  {
    assert (j - i) * x >= 0;
  }

  /**
   aspect's answer fits the box, reaches the side that binds and is at least one pixel each way; on
   the other side it keeps the source's proportions to under a pixel, unless less than one pixel
   was left of that side.
   */
  lemma AspectFits(srcW: int, srcH: int, maxW: int, maxH: int)
    requires Sizes(srcW, srcH, maxW, maxH)
    ensures var (w, h) := Aspect(srcW, srcH, maxW, maxH);
            && 1 <= w <= maxW && 1 <= h <= maxH
            && if maxW * srcH < maxH * srcW
               then w == maxW && (0 <= maxW * srcH - h * srcW < srcW || (h == 1 && maxW * srcH < srcW))
               else h == maxH && (0 <= maxH * srcW - w * srcH < srcH || (w == 1 && maxH * srcW < srcH))
  {
    Products(srcW, srcH, maxW, maxH);
    if maxW * srcH < maxH * srcW {
      AtMost(maxW * srcH, maxH, srcW);
      Floor(maxW * srcH, srcW, maxW * srcH / srcW);
    } else {
      AtMost(maxH * srcW, maxW, srcH);
      Floor(maxH * srcW, srcH, maxH * srcW / srcH);
    }
  }

  /**
   No size in the box that keeps to the source's proportions, or falls short of them on the side aspect computes, is
   larger either way.
   */
  lemma AspectIsLargest(srcW: int, srcH: int, maxW: int, maxH: int, w: int, h: int)
    requires Sizes(srcW, srcH, maxW, maxH)
    requires 0 < w <= maxW && 0 < h <= maxH
    requires if maxW * srcH < maxH * srcW then h * srcW <= w * srcH else w * srcH <= h * srcW
    ensures w <= Aspect(srcW, srcH, maxW, maxH).0 && h <= Aspect(srcW, srcH, maxW, maxH).1
  {
    Products(srcW, srcH, maxW, maxH);
    if maxW * srcH < maxH * srcW {
      Grow(w, maxW, srcH);
      AtLeast(maxW * srcH, h, srcW);
    } else {
      Grow(h, maxH, srcW);
      AtLeast(maxH * srcW, w, srcH);
    }
  }

  /** The crop has exactly the size asked for, lies inside the scaled image and is centred to within a pixel. */
  lemma CropIsCentred(srcW: int, srcH: int, w: int, h: int)
    requires Sizes(srcW, srcH, w, h)
    ensures var (scaledW, scaledH, box) := CropBox(srcW, srcH, w, h);
            && box.x1 - box.x0 == w && box.y1 - box.y0 == h
            && 0 <= box.x0 && box.x1 <= scaledW && 0 <= box.y0 && box.y1 <= scaledH
            && 0 <= (scaledW - box.x1) - box.x0 <= 1 && 0 <= (scaledH - box.y1) - box.y0 <= 1
  {
    Products(srcW, srcH, w, h);
    if w * srcH > h * srcW {
      AtLeast(w * srcH, h, srcW);
    } else {
      AtLeast(h * srcW, w, srcH);
    }
  }

  /** The scaled image covers the box with one side equal, in the source's proportions to under a pixel. */
  lemma CropCovers(srcW: int, srcH: int, w: int, h: int)
    requires Sizes(srcW, srcH, w, h)
    ensures var (scaledW, scaledH, _) := CropBox(srcW, srcH, w, h);
            && scaledW >= w && scaledH >= h
            && ((scaledW == w && 0 <= w * srcH - scaledH * srcW < srcW)
                || (scaledH == h && 0 <= h * srcW - scaledW * srcH < srcH))
  {
    CropIsCentred(srcW, srcH, w, h);
    Products(srcW, srcH, w, h);
    if w * srcH > h * srcW {
      Floor(w * srcH, srcW, w * srcH / srcW);
    } else {
      Floor(h * srcW, srcH, h * srcW / srcH);
    }
  }

  /**
   The clamp, which takes the smaller of each side on its own, gives aspect's answer when that
   enlarges neither side and otherwise the source's own size, never one side of each.
   */
  lemma ClampIsEither(srcW: int, srcH: int, maxW: int, maxH: int)
    requires Sizes(srcW, srcH, maxW, maxH)
    ensures var (w, h) := Aspect(srcW, srcH, maxW, maxH);
            ScaledSize(srcW, srcH, maxW, maxH) == if w <= srcW && h <= srcH then (w, h) else (srcW, srcH)
  {
    Products(srcW, srcH, maxW, maxH);
    if maxW * srcH < maxH * srcW {
      if maxW <= srcW {
        Grow(maxW, srcW, srcH);
        AtMost(maxW * srcH, srcH, srcW);
      } else {
        Grow(srcW, maxW, srcH);
        AtLeast(maxW * srcH, srcH, srcW);
      }
    } else {
      if maxH <= srcH {
        Grow(maxH, srcH, srcW);
        AtMost(maxH * srcW, srcW, srcH);
      } else {
        Grow(srcH, maxH, srcW);
        AtLeast(maxH * srcW, srcW, srcH);
      }
    }
  }
}
