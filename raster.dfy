/**
  Pixel-space arithmetic shared by the three variants of the demo: channel bytes,
  the stores into a `Uint8ClampedArray`, `Math.round`, clamping, row-major
  indexing and the two maps from a pin's grid cell to a depth-map position.
*/
module Raster {

  /** One element of a `Uint8ClampedArray` (an RGBA channel). */
  newtype byte = x: int | 0 <= x < 256

  /** A depth map as the estimator publishes it: row-major samples and its dimensions. */
  datatype DepthMap = DepthMap(data: seq<real>, width: nat, height: nat)
  {
    /** The buffer holds exactly one sample per pixel. */
    predicate WellFormed() {
      |data| == width * height
    }
  }

  /** Pixel `p` of an RGBA image is the opaque gray `g`. */
  ghost predicate Gray(image: array<byte>, p: nat, g: byte)
    reads image
  {
    4 * p + 3 < image.Length &&
    image[4 * p] == g && image[4 * p + 1] == g && image[4 * p + 2] == g && image[4 * p + 3] == 255
  }

  /** The four stores of one pixel: R, G and B get `level`, A gets 255; no other byte changes. */
  method PutGray(image: array<byte>, pixelIndex: nat, level: byte, ghost p: nat)
    requires pixelIndex == 4 * p && pixelIndex + 3 < image.Length
    modifies image
    ensures Gray(image, p, level)
    ensures forall k :: 0 <= k < image.Length && !(pixelIndex <= k < pixelIndex + 4) ==> image[k] == old(image[k])
  {
    image[pixelIndex] := level;
    image[pixelIndex + 1] := level;
    image[pixelIndex + 2] := level;
    image[pixelIndex + 3] := 255;
  }

  /** `Math.round`: the nearest integer, halves rounded towards +Infinity. */
  function JsRound(x: real): (r: int)
    ensures r as real - 0.5 <= x < r as real + 0.5
  {
    (x + 0.5).Floor
  }

  /**
    The value a `Uint8ClampedArray` stores for a finite number `x`: clamped to
    [0, 255], then rounded to the nearest integer with ties to even.
    (A NaN stores as 0; callers make that case explicit.)
  */
  function Uint8Clamp(x: real): (b: byte)
    ensures x <= 0.0 ==> b == 0
    ensures x >= 255.0 ==> b == 255
    ensures 0.0 <= x <= 255.0 ==> b as real - 0.5 <= x <= b as real + 0.5
    ensures x == x.Floor as real && 0.0 <= x <= 255.0 ==> b as int == x.Floor
  {
    if x <= 0.0 then 0
    else if x >= 255.0 then 255
    else
      var f := x.Floor;
      if x < f as real + 0.5 then f as byte
      else if x > f as real + 0.5 then (f + 1) as byte
      else if f % 2 == 0 then f as byte
      else (f + 1) as byte
  }

  /** Storing a larger number never stores a smaller byte (rounding ties to even is monotone). */
  lemma Uint8ClampMonotone(x: real, y: real)
    requires x <= y
    ensures Uint8Clamp(x) <= Uint8Clamp(y)
  {
    if 0.0 < x && y < 255.0 && x.Floor == y.Floor {
      var f := x.Floor;
      if Uint8Clamp(x) as int == f + 1 {
        assert f as real + 0.5 <= x;
        assert Uint8Clamp(y) as int == f + 1;
      }
    } else if 0.0 < x && y < 255.0 {
      assert x.Floor < y.Floor;
    }
  }

  /** `Math.min(Math.max(x, lo), hi)` for `lo <= hi`. */
  function Clamp(x: int, lo: int, hi: int): (r: int)
    requires lo <= hi
    ensures lo <= r <= hi
    ensures lo <= x <= hi ==> r == x
  {
    if x < lo then lo else if x > hi then hi else x
  }

  /** A pixel `(x, y)` of a `width`-by-`height` image has a row-major index inside the buffer. */
  lemma RowMajorInBounds(x: int, y: int, width: int, height: int)
    requires 0 <= x < width && 0 <= y < height
    ensures 0 <= y * width + x < width * height
  {
    assert y * width <= (height - 1) * width by {
      MulMonotone(y, height - 1, width);
    }
    assert (height - 1) * width == height * width - width;
  }

  lemma MulMonotone(a: int, b: int, c: int)
    requires a <= b && 0 <= c
    ensures a * c <= b * c
  {
    assert b * c - a * c == (b - a) * c;
  }

  /** Stepping from row `h` to row `h + 1` of a `width`-wide grid of `height` rows stays inside it. */
  lemma NextRow(h: nat, height: nat, width: nat)
    requires h < height
    ensures (h + 1) * width == h * width + width <= width * height
  {
    MulMonotone(h + 1, height, width);
  }

  /**
    The offsets of sample `(w, h)` of channel 0 of a `height`-by-`width`
    tensor, and of its RGBA pixel, written as the scans and fills compute them.
  */
  lemma TensorOffsets(height: int, h: int, width: int, w: int)
    ensures (0 * height + h) * width + w == h * width + w
    ensures (h * width + w) * 4 == 4 * (h * width + w)
  {
  }

  /** After the last row, `h * width` is the whole grid. */
  lemma LastRow(h: nat, height: nat, width: nat)
    requires h == height
    ensures h * width == width * height
  {
  }

  lemma RealMulStrict(a: real, b: real, c: real)
    requires a < b && 0.0 < c
    ensures a * c < b * c
  {
    assert b * c - a * c == (b - a) * c;
  }

  /** Column of pin `i` as the update loops compute it: `i % gridSize`. */
  function GridX(i: nat, gridSize: nat): nat
    requires gridSize > 0
  {
    i % gridSize
  }

  /** Row of pin `i` as the update loops compute it: `Math.floor(i / gridSize)`. */
  function GridY(i: nat, gridSize: nat): nat
    requires gridSize > 0
  {
    i / gridSize
  }

  /** Every one of the `gridSize * gridSize` pins falls in a cell of the grid, and the split is exact. */
  lemma GridCellInRange(i: nat, gridSize: nat)
    requires 0 < gridSize && i < gridSize * gridSize
    ensures GridX(i, gridSize) < gridSize && GridY(i, gridSize) < gridSize
    ensures GridY(i, gridSize) * gridSize + GridX(i, gridSize) == i
  {
    var q, r := i / gridSize, i % gridSize;
    assert q * gridSize + r == i;
    if q >= gridSize {
      MulMonotone(gridSize, q, gridSize);
      assert false;
    }
  }

  /**
    Nearest-neighbour sampling position of cell `g` along an axis of `dim` pixels:
    `Math.floor((g + 0.5) * (dim / gridSize))`, the pixel under the cell's centre.
  */
  function CellCentre(g: nat, dim: nat, gridSize: nat): int
    requires gridSize > 0
  {
    ((g as real + 0.5) * (dim as real / gridSize as real)).Floor
  }

  /** With `skip = dim / gridSize` the centre of every cell is already a pixel of the image. */
  lemma CellCentreInImage(g: nat, dim: nat, gridSize: nat)
    requires g < gridSize && 0 < dim
    ensures 0 <= CellCentre(g, dim, gridSize) < dim
  {
    var skip := dim as real / gridSize as real;
    var x := (g as real + 0.5) * skip;
    assert skip * gridSize as real == dim as real;
    assert 0.0 < skip;
    assert g as real + 0.5 < gridSize as real;
    RealMulStrict(g as real + 0.5, gridSize as real, skip);
    assert 0.0 <= x;
  }

  /**
    The pixel a pin reads in the nearest-neighbour variants: the cell centre
    clamped into the image (`Math.min(Math.max(x, 0), dim - 1)`).
  */
  function SafeCoord(g: nat, dim: nat, gridSize: nat): (c: nat)
    requires gridSize > 0 && dim > 0
    ensures c < dim
    ensures g < gridSize ==> c == CellCentre(g, dim, gridSize)
  {
    if g < gridSize then
      CellCentreInImage(g, dim, gridSize);
      Clamp(CellCentre(g, dim, gridSize), 0, dim - 1)
    else
      Clamp(CellCentre(g, dim, gridSize), 0, dim - 1)
  }

  /**
    Row-major index `safeY * width + safeX` of the pixel pin `i` reads; it
    addresses the buffer for every pin index, thanks to the clamp.
  */
  function SampleIndex(i: nat, width: nat, height: nat, gridSize: nat): (k: nat)
    requires gridSize > 0 && width > 0 && height > 0
    ensures k < width * height
    ensures i < gridSize * gridSize ==>
      k == CellCentre(GridY(i, gridSize), height, gridSize) * width + CellCentre(GridX(i, gridSize), width, gridSize)
  {
    var safeX := SafeCoord(GridX(i, gridSize), width, gridSize);
    var safeY := SafeCoord(GridY(i, gridSize), height, gridSize);
    RowMajorInBounds(safeX, safeY, width, height);
    if i < gridSize * gridSize then
      GridCellInRange(i, gridSize);
      safeY * width + safeX
    else
      safeY * width + safeX
  }

  /**
    Quadratic-sampling position of cell `g` along an axis of `dim` pixels:
    `(g + 0.5) * (dim / (gridSize - 1))`, the edge-to-edge convention.
  */
  function SpanCoord(g: nat, dim: nat, gridSize: nat): real
    requires gridSize > 1
  {
    (g as real + 0.5) * (dim as real / (gridSize - 1) as real)
  }

  /**
    The last cell's position lies past the image edge: the division by
    `gridSize - 1` together with the `+ 0.5` centring overshoots, so only the
    sampler's clamp keeps that read inside the buffer.
  */
  lemma LastSpanCoordBeyondImage(dim: nat, gridSize: nat)
    requires gridSize > 1 && dim > 0
    ensures SpanCoord(gridSize - 1, dim, gridSize) > dim as real
  {
    var skip := dim as real / (gridSize - 1) as real;
    assert skip * (gridSize - 1) as real == dim as real;
    assert 0.0 < skip;
    assert SpanCoord(gridSize - 1, dim, gridSize) == (gridSize - 1) as real * skip + 0.5 * skip;
  }
}
