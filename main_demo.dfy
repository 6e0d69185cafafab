/**
  The single-frame variant (main.js): the network's depth tensor is turned into
  a grayscale RGBA image (`postprocess`), and on the first animation frame after
  that image exists every pin reads one pixel of it and is stretched once
  (`updatePins`, guarded by `depthProcessed`).
*/
module MainDemo {
  import opened Wrappers
  import opened Raster
  import opened Extrema
  import opened Actuation

  /** Pins per row and per column. */
  const GridSize: nat := 40

  /** Height of a pin's cylinder; a pin starts at half of it. */
  const PinHeight: real := 1.0

  /** A pin as the scene builds it: at half height, unscaled. */
  const RestingPin := Pin(PinHeight / 2.0, 1.0, PinHeight / 2.0)

  /**
    `max_depth` as postprocess computes it: seeded with 0 rather than
    -Infinity, so it is the largest sample or 0, whichever is larger.
  */
  function MaxDepth(s: seq<real>): real
  {
    if |s| == 0 then 0.0
    else
      var rest := MaxDepth(s[..|s| - 1]);
      if s[|s| - 1] > rest then s[|s| - 1] else rest
  }

  /**
    The seeded maximum is 0 on an empty buffer and otherwise the larger of
    the buffer's maximum and 0; either way it bounds every sample.
  */
  lemma {:induction false} MaxDepthIsSeededMax(s: seq<real>)
    ensures 0.0 <= MaxDepth(s)
    ensures forall i :: 0 <= i < |s| ==> s[i] <= MaxDepth(s)
    ensures |s| == 0 ==> MaxDepth(s) == 0.0
    ensures |s| > 0 ==> MaxDepth(s) == (if Max(s) > 0.0 then Max(s) else 0.0)
  {
    if |s| > 0 {
      var init := s[..|s| - 1];
      MaxDepthIsSeededMax(init);
      assert forall i :: 0 <= i < |init| ==> init[i] == s[i];
    }
  }

  /** `min_depth` and `max_depth` after the scan over the first `n` samples. */
  ghost predicate Scanned(s: seq<real>, minDepth: Bound, maxDepth: real) {
    && (|s| == 0 ==> minDepth == PosInf)
    && (|s| > 0 ==> minDepth == Finite(Min(s)))
    && maxDepth == MaxDepth(s)
  }

  /** One more sample through the two comparisons of the scan. */
  lemma ScannedExtend(s: seq<real>, k: nat, minDepth: Bound, maxDepth: real, minDepth': Bound, maxDepth': real)
    requires k < |s| && Scanned(s[..k], minDepth, maxDepth)
    requires maxDepth' == if s[k] > maxDepth then s[k] else maxDepth
    requires minDepth' == if Below(s[k], minDepth) then Finite(s[k]) else minDepth
    ensures Scanned(s[..k + 1], minDepth', maxDepth')
  {
    assert s[..k + 1][..k] == s[..k];
  }

  /**
    The inner loop of the range scan: the samples of row `h`, at
    `(0 * height + h) * width + w`, pass through the two comparisons.
    `row` is the row's first sample, `h * width`.
  */
  method ScanRow(tensorData: seq<real>, width: nat, height: nat, h: nat, ghost row: nat,
                 minDepth: Bound, maxDepth: real)
    returns (minDepth': Bound, maxDepth': real)
    requires row == h * width && row + width <= |tensorData|
    requires Scanned(tensorData[..row], minDepth, maxDepth)
    ensures Scanned(tensorData[..row + width], minDepth', maxDepth')
  {
    minDepth', maxDepth' := minDepth, maxDepth;
    var w := 0;
    while w < width
      invariant 0 <= w <= width
      invariant Scanned(tensorData[..row + w], minDepth', maxDepth')
    {
      TensorOffsets(height, h, width, w);
      var tensorIndex := (0 * height + h) * width + w;
      var value := tensorData[tensorIndex];
      ghost var (minBefore, maxBefore) := (minDepth', maxDepth');
      if value > maxDepth' { maxDepth' := value; }
      if Below(value, minDepth') { minDepth' := Finite(value); }
      ScannedExtend(tensorData, tensorIndex, minBefore, maxBefore, minDepth', maxDepth');
      w := w + 1;
    }
  }

  /**
    The range scan of postprocess (channel 0 of the tensor, row by row): the
    minimum of the `width * height` samples, seeded with Infinity, and their
    maximum seeded with 0.
  */
  method DepthRange(tensorData: seq<real>, width: nat, height: nat) returns (minDepth: Bound, maxDepth: real)
    requires width * height <= |tensorData|
    ensures width * height == 0 ==> minDepth == PosInf && maxDepth == 0.0
    ensures width * height > 0 ==> minDepth == Finite(Min(tensorData[..width * height]))
    ensures maxDepth == MaxDepth(tensorData[..width * height])
  {
    ghost var n := width * height;
    maxDepth := 0.0;
    minDepth := PosInf;
    var h := 0;
    ghost var row: nat := 0;
    while h < height
      invariant 0 <= h <= height && row == h * width && row <= n
      invariant Scanned(tensorData[..row], minDepth, maxDepth)
    {
      NextRow(h, height, width);
      minDepth, maxDepth := ScanRow(tensorData, width, height, h, row, minDepth, maxDepth);
      h := h + 1;
      row := row + width;
    }
    LastRow(h, height, width);
  }

  /**
    The byte stored for one sample: `Math.round(((value - min) / (max - min)) * 255)`
    written into the image's `Uint8ClampedArray`.  A zero range gives NaN,
    which `Math.round` keeps and the array stores as 0.
  */
  function Level(value: real, minDepth: real, maxDepth: real): byte
  {
    if maxDepth == minDepth then 0
    else
      var depth := ((value - minDepth) / (maxDepth - minDepth)) * 255.0;
      Uint8Clamp(JsRound(depth) as real)
  }

  /**
    Inside a non-empty range the stored byte is exactly the rounded scaled
    depth (the array's clamp never bites); the smallest sample is black and
    the largest white.
  */
  lemma LevelIsRoundedDepth(value: real, minDepth: real, maxDepth: real)
    requires minDepth <= value <= maxDepth && minDepth < maxDepth
    ensures Level(value, minDepth, maxDepth) as int == JsRound(Normalize(value, minDepth, maxDepth) * 255.0)
    ensures value == minDepth ==> Level(value, minDepth, maxDepth) == 0
    ensures value == maxDepth ==> Level(value, minDepth, maxDepth) == 255
  {
    var n := Normalize(value, minDepth, maxDepth);
    var r := JsRound(n * 255.0);
    assert 0 <= r <= 255;
  }

  /** Larger samples are never darker. */
  lemma LevelMonotone(v1: real, v2: real, minDepth: real, maxDepth: real)
    requires minDepth <= v1 <= v2 <= maxDepth && minDepth < maxDepth
    ensures Level(v1, minDepth, maxDepth) <= Level(v2, minDepth, maxDepth)
  {
    NormalizeMonotone(v1, v2, minDepth, maxDepth);
    LevelIsRoundedDepth(v1, minDepth, maxDepth);
    LevelIsRoundedDepth(v2, minDepth, maxDepth);
  }

  /** The gray level postprocess gives pixel `p` of an `n`-pixel depth map. */
  function PixelLevel(tensorData: seq<real>, n: nat, p: nat): byte
    requires p < n <= |tensorData|
  {
    Level(tensorData[p], Min(tensorData[..n]), MaxDepth(tensorData[..n]))
  }

  /**
    The inner loop of postprocess's fill: every pixel of row `h` becomes the
    opaque gray of its sample, at `(h * width + w) * 4`.
  */
  method PaintRow(image: array<byte>, tensorData: seq<real>, width: nat, height: nat, h: nat,
                  minDepth: Bound, maxDepth: real, ghost row: nat, ghost lo: real)
    requires row == h * width && row + width <= |tensorData| && 4 * (row + width) <= image.Length
    requires width > 0 ==> minDepth == Finite(lo)
    requires forall p :: 0 <= p < row ==> Gray(image, p, Level(tensorData[p], lo, maxDepth))
    modifies image
    ensures forall p :: 0 <= p < row + width ==> Gray(image, p, Level(tensorData[p], lo, maxDepth))
    ensures forall k :: 4 * (row + width) <= k < image.Length ==> image[k] == old(image[k])
  {
    var w := 0;
    while w < width
      invariant 0 <= w <= width
      invariant forall p :: 0 <= p < row + w ==> Gray(image, p, Level(tensorData[p], lo, maxDepth))
      invariant forall k :: 4 * (row + w) <= k < image.Length ==> image[k] == old(image[k])
    {
      TensorOffsets(height, h, width, w);
      var tensorIndex := (0 * height + h) * width + w;
      var value := tensorData[tensorIndex];
      var level := Level(value, minDepth.value, maxDepth);
      var pixelIndex := (h * width + w) * 4;
      PutGray(image, pixelIndex, level, row + w);
      w := w + 1;
    }
  }

  /**
    `postprocess(tensor)`: a `width`-by-`height` RGBA image in which every
    pixel is an opaque gray (R == G == B, A == 255) whose level is the pixel's
    depth scaled into [0, 255] by the scanned range.
  */
  method Postprocess(tensorData: seq<real>, width: nat, height: nat) returns (image: array<byte>)
    requires width * height <= |tensorData|
    ensures fresh(image) && image.Length == 4 * (width * height)
    ensures forall p :: 0 <= p < width * height ==> Gray(image, p, PixelLevel(tensorData, width * height, p))
  {
    var n := width * height;
    image := new byte[4 * n];
    var minDepth, maxDepth := DepthRange(tensorData, width, height);
    ghost var lo := if n > 0 then Min(tensorData[..n]) else 0.0;
    var h := 0;
    ghost var row: nat := 0;
    while h < height
      invariant 0 <= h <= height && row == h * width && row <= n
      invariant forall p :: 0 <= p < row ==> Gray(image, p, Level(tensorData[p], lo, maxDepth))
    {
      NextRow(h, height, width);
      PaintRow(image, tensorData, width, height, h, minDepth, maxDepth, row, lo);
      h := h + 1;
      row := row + width;
    }
    LastRow(h, height, width);
  }

  /** The depth image as the pins read it back from the depth canvas. */
  datatype DepthCanvas = DepthCanvas(width: nat, height: nat, rgba: seq<byte>)
  {
    predicate WellFormed() {
      width > 0 && height > 0 && |rgba| == 4 * (width * height)
    }
  }

  /**
    Depth of pin `i`: the red byte of the pixel under its cell's centre
    (`depthData[pixelIndex] / 255`), a value in [0, 1].
  */
  function PinDepth(canvas: DepthCanvas, i: nat): (d: real)
    requires canvas.WellFormed()
    ensures 0.0 <= d <= 1.0
  {
    var k := SampleIndex(i, canvas.width, canvas.height, GridSize);
    canvas.rgba[4 * k] as real / 255.0
  }

  /** The pins after one update pass over `canvas`: each stretched by its own sample. */
  function RaisedPins(pins: seq<Pin>, canvas: DepthCanvas): (r: seq<Pin>)
    requires canvas.WellFormed()
    ensures |r| == |pins|
    ensures forall i :: 0 <= i < |r| ==>
      1.0 <= r[i].scaleY <= 6.0 && r[i].positionY == pins[i].originalY * r[i].scaleY && r[i].originalY == pins[i].originalY
  {
    seq(|pins|, i requires 0 <= i < |pins| => Raise(pins[i], PinDepth(canvas, i)))
  }

  /** The pixel a pin reads is a whole RGBA pixel of the canvas. */
  lemma PinPixelInCanvas(canvas: DepthCanvas, i: nat)
    requires canvas.WellFormed()
    ensures var k := SampleIndex(i, canvas.width, canvas.height, GridSize);
      0 <= 4 * k && 4 * k + 3 < |canvas.rgba|
  {
  }

  /**
    The `pins.forEach` callback of updatePins for pin `index`: the pixel under
    the cell's centre, clamped into the canvas, sets the pin's scale and height.
  */
  method UpdatePin(pin: Pin, index: nat, canvas: DepthCanvas) returns (updated: Pin)
    requires canvas.WellFormed()
    ensures updated == Raise(pin, PinDepth(canvas, index))
  {
    var depthData := canvas.rgba;
    var gridX := GridX(index, GridSize);
    var gridY := GridY(index, GridSize);
    var x := CellCentre(gridX, canvas.width, GridSize);
    var y := CellCentre(gridY, canvas.height, GridSize);
    var safeX := Clamp(x, 0, canvas.width - 1);
    var safeY := Clamp(y, 0, canvas.height - 1);
    var pixelIndex := (safeY * canvas.width + safeX) * 4;
    assert pixelIndex == 4 * SampleIndex(index, canvas.width, canvas.height, GridSize);
    var depth := depthData[pixelIndex] as real / 255.0;
    var heightScale := 1.0 + (depth * 5.0);
    updated := pin.(scaleY := heightScale, positionY := pin.originalY * heightScale);
  }

  /** The globals of main.js that the depth-to-pin path reads and writes. */
  class MainScene {
    var pins: array<Pin>
    var depthDataReceived: bool
    var depthProcessed: bool

    ghost predicate Valid()
      reads this
    {
      pins.Length == GridSize * GridSize
    }

    /** The pin grid of `init`, before any depth has arrived. */
    constructor ()
      ensures Valid() && fresh(pins)
      ensures !depthDataReceived && !depthProcessed
      ensures forall i :: 0 <= i < pins.Length ==> pins[i] == RestingPin
    {
      pins := new Pin[GridSize * GridSize](_ => RestingPin);
      depthDataReceived := false;
      depthProcessed := false;
    }

    /** The depth image has been written to the depth canvas. */
    method DepthReceived()
      modifies this`depthDataReceived
      ensures depthDataReceived
    {
      depthDataReceived := true;
    }

    /**
      `updatePins()`: does nothing without a depth canvas, before the depth
      image exists, or once a pass has completed; otherwise raises every pin
      by the pixel under its cell and sets `depthProcessed`, so the pins are
      updated exactly once.
    */
    method UpdatePins(depthCanvas: Option<DepthCanvas>)
      requires Valid()
      requires depthCanvas.Some? ==> depthCanvas.value.WellFormed()
      modifies this`depthProcessed, pins
      ensures Valid()
      ensures depthProcessed == (old(depthProcessed) || (depthCanvas.Some? && depthDataReceived))
      ensures if depthCanvas.Some? && !old(depthProcessed) && depthDataReceived
              then pins[..] == RaisedPins(old(pins[..]), depthCanvas.value)
              else pins[..] == old(pins[..])
    {
      if depthCanvas.None? || depthProcessed || !depthDataReceived {
        return;
      }
      var canvas := depthCanvas.value;
      var index := 0;
      while index < pins.Length
        invariant 0 <= index <= pins.Length
        invariant forall k :: 0 <= k < index ==> pins[k] == Raise(old(pins[k]), PinDepth(canvas, k))
        invariant forall k :: index <= k < pins.Length ==> pins[k] == old(pins[k])
      {
        pins[index] := UpdatePin(pins[index], index, canvas);
        index := index + 1;
      }
      assert pins[..] == RaisedPins(old(pins[..]), canvas) by {
        var raised := RaisedPins(old(pins[..]), canvas);
        forall k | 0 <= k < pins.Length
          ensures pins[k] == raised[k]
        {
        }
      }
      depthProcessed := true;
    }
  }
}
