/**
  The depth overlay that both live variants (combined/main.js and
  o1-combined-one-shot/main.js) draw in `runInference`: the raw depth map is
  scanned for its extrema and every sample becomes an opaque gray pixel
  `255 * (1 - norm)`: the smallest sample is white, the largest black.
*/
module Overlay {
  import opened Raster
  import opened Extrema

  /**
    The byte stored for one sample: `gray = 255 * (1 - (v - min) / range)`
    written into a `Uint8ClampedArray`. A zero range makes `norm` NaN, which
    the array stores as 0 (the extrema of a buffer never cross).
  */
  function Shade(v: real, lo: real, hi: real): byte
  {
    if lo < hi then Uint8Clamp(255.0 * (1.0 - Normalize(v, lo, hi)))
    else 0
  }

  /**
    Inside a non-empty range the gray value `255 * (1 - norm)` lies in
    [0, 255], so the array's clamp never bites and the stored byte is that
    value rounded; the smallest sample is white and the largest black.
  */
  lemma ShadeIsRoundedInverseDepth(v: real, lo: real, hi: real)
    requires lo <= v <= hi && lo < hi
    ensures var gray := 255.0 * (1.0 - Normalize(v, lo, hi));
      && 0.0 <= gray <= 255.0
      && Shade(v, lo, hi) as real - 0.5 <= gray <= Shade(v, lo, hi) as real + 0.5
    ensures v == lo ==> Shade(v, lo, hi) == 255
    ensures v == hi ==> Shade(v, lo, hi) == 0
  {
  }

  /** A larger sample is never brighter. */
  lemma ShadeAntitone(v1: real, v2: real, lo: real, hi: real)
    requires v1 <= v2
    ensures Shade(v2, lo, hi) <= Shade(v1, lo, hi)
  {
    if lo < hi {
      NormalizeMonotone(v1, v2, lo, hi);
      Uint8ClampMonotone(255.0 * (1.0 - Normalize(v2, lo, hi)), 255.0 * (1.0 - Normalize(v1, lo, hi)));
    }
  }

  /** A flat depth map (zero range) draws every pixel black, as the NaN stores do. */
  lemma ShadeFlat(v: real, lo: real)
    ensures Shade(v, lo, lo) == 0
  {
  }

  /**
    The fill loop of `runInference`: an RGBA buffer of `4 * depthData.length`
    bytes in which pixel `i` is the opaque gray of sample `i`, shaded against
    the extrema of the whole buffer.
  */
  method Render(depthData: seq<real>) returns (imageData: array<byte>)
    ensures fresh(imageData) && imageData.Length == 4 * |depthData|
    ensures forall i :: 0 <= i < |depthData| ==>
      Gray(imageData, i, Shade(depthData[i], Min(depthData), Max(depthData)))
  {
    var minVal, maxVal := Scan(depthData);
    imageData := new byte[4 * |depthData|];
    var i := 0;
    while i < |depthData|
      invariant 0 <= i <= |depthData|
      invariant forall k :: 0 <= k < i ==> Gray(imageData, k, Shade(depthData[k], Min(depthData), Max(depthData)))
    {
      var offset := 4 * i;
      var gray := Shade(depthData[i], minVal.value, maxVal.value);
      PutGray(imageData, offset, gray, i);
      i := i + 1;
    }
  }
}
