/**
  The combined variant (combined/main.js): a depth map arrives with every
  inference, and on every animation frame each pin group of a 120×120 grid
  is moved to `5 * norm`, where `norm` is the quadratic reconstruction of the
  map at the pin's position, normalised by the extrema of the whole map.
*/
module CombinedDemo {
  import opened Wrappers
  import opened Raster
  import opened Extrema
  import opened Quadratic
  import opened Overlay

  /** Pin groups per row and per column. */
  const GridSize: nat := 120

  /**
    A depth map the update can use: large enough for the 3×3 stencil, one
    sample per pixel, and not flat (the update divides by the range unguarded).
  */
  predicate Usable(m: DepthMap) {
    m.width >= 3 && m.height >= 3 && m.WellFormed() && |m.data| > 0 && Min(m.data) < Max(m.data)
  }

  /**
    The raw depth under pin `i`: the reconstruction at
    `((gx + 0.5) * width / (gridSize - 1), (gy + 0.5) * height / (gridSize - 1))`.
  */
  function PinSample(m: DepthMap, i: nat): real
    requires Usable(m)
  {
    var x := SpanCoord(GridX(i, GridSize), m.width, GridSize);
    var y := SpanCoord(GridY(i, GridSize), m.height, GridSize);
    SampleDepthQuadratic(x, y, m.data, m.width, m.height)
  }

  /** `position.y` of pin group `i` after an update: `5 * (rawD - minVal) / range`. */
  function PinHeight(m: DepthMap, i: nat): real
    requires Usable(m)
  {
    5.0 * Normalize(PinSample(m, i), Min(m.data), Max(m.data))
  }

  /** A sample at most 9/32 of the range outside it normalises to at most 9/32 outside [0, 1]. */
  lemma NormalizeOvershoot(v: real, lo: real, hi: real)
    requires lo < hi
    requires lo - 9.0 * (hi - lo) / 32.0 <= v <= hi + 9.0 * (hi - lo) / 32.0
    ensures -9.0 / 32.0 <= Normalize(v, lo, hi) <= 1.0 + 9.0 / 32.0
  {
    QuotientBetween(v - lo, hi - lo, -9.0 / 32.0, 1.0 + 9.0 / 32.0);
  }

  /**
    Pin heights are not confined to [0, 5]: the quadratic reconstruction can
    overshoot the map's extrema, but by at most 9/32 of the range, so every
    height lies in [-45/32, 5 + 45/32].
  */
  lemma PinHeightBounds(m: DepthMap, i: nat)
    requires Usable(m)
    ensures -45.0 / 32.0 <= PinHeight(m, i) <= 5.0 + 45.0 / 32.0
  {
    var lo, hi := Min(m.data), Max(m.data);
    MinIsMinimum(m.data);
    MaxIsMaximum(m.data);
    var x := SpanCoord(GridX(i, GridSize), m.width, GridSize);
    var y := SpanCoord(GridY(i, GridSize), m.height, GridSize);
    SampleOvershoot(x, y, m.data, m.width, m.height, lo, hi);
    NormalizeOvershoot(PinSample(m, i), lo, hi);
  }

  /** A 4×3 map whose three rows all read 1, 0, 0, 0. */
  const StepMap := DepthMap([1.0, 0.0, 0.0, 0.0, 1.0, 0.0, 0.0, 0.0, 1.0, 0.0, 0.0, 0.0], 4, 3)

  /**
    The overshoot happens: on a usable map whose samples lie in [0, 1], pin
    group 30 (cell column 30 of row 0) samples between the 1 and the first 0,
    where the quadratic through 1, 0, 0 dips below 0, so the group is placed
    below the lowest height a sample can give.
  */
  lemma PinBelowFloor()
    ensures Usable(StepMap) && Min(StepMap.data) == 0.0 && Max(StepMap.data) == 1.0
    ensures PinHeight(StepMap, 30) < 0.0
  {
    StepMapExtrema();
    var m := StepMap;
    var x := SpanCoord(GridX(30, GridSize), m.width, GridSize);
    StepMapSample(x, SpanCoord(GridY(30, GridSize), m.height, GridSize));
    LagrangeIsWeightedSum(1.0, 0.0, 0.0, x);
    assert Weighted(Basis0(x), 1.0) == Basis0(x);
    assert Weighted(Basis1(x), 0.0) == 0.0 && Weighted(Basis2(x), 0.0) == 0.0;
    assert Basis0(122.0 / 119.0) == (3.0 / 119.0) * (-116.0 / 119.0) / 2.0;
  }

  /** The step map is usable, with extrema 0 and 1. */
  lemma StepMapExtrema()
    ensures Usable(StepMap) && Min(StepMap.data) == 0.0 && Max(StepMap.data) == 1.0
  {
    var m := StepMap;
    MinIsMinimum(m.data);
    MaxIsMaximum(m.data);
    assert forall k :: 0 <= k < |m.data| ==> 0.0 <= m.data[k] <= 1.0;
    var kMin :| 0 <= kMin < |m.data| && Min(m.data) == m.data[kMin];
    var kMax :| 0 <= kMax < |m.data| && Max(m.data) == m.data[kMax];
    assert Min(m.data) <= m.data[1] == 0.0 <= m.data[kMin];
    assert m.data[kMax] <= 1.0 == m.data[0] <= Max(m.data);
  }

  /**
    At pin group 30's position the step map's reconstruction is the row
    quadratic through 1, 0, 0 at `x = 122/119`: the clamp pins `y` to row 1.
  */
  lemma StepMapSample(x: real, y: real)
    requires x == SpanCoord(GridX(30, GridSize), 4, GridSize) && y == SpanCoord(GridY(30, GridSize), 3, GridSize)
    ensures x == 122.0 / 119.0
    ensures SampleDepthQuadratic(x, y, StepMap.data, 4, 3) == Lagrange(1.0, 0.0, 0.0, x)
  {
    StepMapStencils(x, y);
    SampleOnRowNode(x, y, StepMap.data, 4, 3);
    StepMapRows(x);
  }

  /** Pin group 30 lies inside the x band at `122/119`, in the block from column 0; `y` clamps to row 1. */
  lemma StepMapStencils(x: real, y: real)
    requires x == SpanCoord(GridX(30, GridSize), 4, GridSize) && y == SpanCoord(GridY(30, GridSize), 3, GridSize)
    ensures x == 122.0 / 119.0
    ensures ClampCoord(x, 4) == x && Stencil(x, 4) == (0, x)
    ensures ClampCoord(y, 3) == 1.0 && Stencil(1.0, 3) == (0, 1.0)
  {
    assert x == 122.0 / 119.0;
    assert y == 1.5 / 119.0;
    assert x.Floor == 1;
  }

  /** Every row of the step map interpolates, along x, to the quadratic through 1, 0, 0. */
  lemma StepMapRows(x: real)
    ensures forall r :: 0 <= r < 3 ==> Row(StepMap.data, 4, 3, 0, r, x) == Lagrange(1.0, 0.0, 0.0, x)
  {
    var m := StepMap;
    forall r | 0 <= r < 3
      ensures Row(m.data, 4, 3, 0, r, x) == Lagrange(1.0, 0.0, 0.0, x)
    {
      assert At(m.data, 4, 3, 0, r) == m.data[4 * r] == 1.0;
      assert At(m.data, 4, 3, 1, r) == m.data[4 * r + 1] == 0.0;
      assert At(m.data, 4, 3, 2, r) == m.data[4 * r + 2] == 0.0;
    }
  }

  /**
    The last column of pins is placed past the right edge of the map
    (`x > width`), and it reads the block whose centre is column `width - 2`:
    only the sampler's clamp keeps those reads inside the buffer.
  */
  lemma LastColumnClamped(m: DepthMap, i: nat)
    requires Usable(m) && i < GridSize * GridSize && GridX(i, GridSize) == GridSize - 1
    ensures SpanCoord(GridX(i, GridSize), m.width, GridSize) > m.width as real
    ensures ClampCoord(SpanCoord(GridX(i, GridSize), m.width, GridSize), m.width) == (m.width - 2) as real
    ensures PinSample(m, i) == SampleDepthQuadratic((m.width - 2) as real,
                                                    SpanCoord(GridY(i, GridSize), m.height, GridSize),
                                                    m.data, m.width, m.height)
  {
    LastSpanCoordBeyondImage(m.width, GridSize);
    var y := SpanCoord(GridY(i, GridSize), m.height, GridSize);
    SampleClamps(SpanCoord(GridX(i, GridSize), m.width, GridSize), y, m.data, m.width, m.height);
    SampleClamps((m.width - 2) as real, y, m.data, m.width, m.height);
  }

  /**
    The body of updatePins' loop for pin `i`: grid cell, position, sample,
    normalisation and the new `position.y`.
  */
  method LiftPin(m: DepthMap, i: nat, minVal: real, range: real, skipX: real, skipY: real) returns (positionY: real)
    requires Usable(m) && minVal == Min(m.data) && range == Max(m.data) - minVal
    requires skipX == m.width as real / (GridSize - 1) as real
    requires skipY == m.height as real / (GridSize - 1) as real
    ensures positionY == PinHeight(m, i)
  {
    var gx := i % GridSize;
    var gy := i / GridSize;
    var x := (gx as real + 0.5) * skipX;
    var y := (gy as real + 0.5) * skipY;
    assert x == SpanCoord(GridX(i, GridSize), m.width, GridSize);
    assert y == SpanCoord(GridY(i, GridSize), m.height, GridSize);
    var rawD := SampleDepthQuadratic(x, y, m.data, m.width, m.height);
    assert rawD == PinSample(m, i);
    var norm := (rawD - minVal) / range;
    assert norm == Normalize(rawD, Min(m.data), Max(m.data));
    positionY := 5.0 * norm;
  }

  /** The globals of combined/main.js that the depth-to-pin path reads and writes. */
  class CombinedScene {
    /** `position.y` of each pin group; the groups are otherwise fixed. */
    var pins: array<real>
    /** `depthData` with `depthWidth` and `depthHeight`, once an inference has finished. */
    var depth: Option<DepthMap>

    ghost predicate Valid()
      reads this
    {
      pins.Length == GridSize * GridSize
    }

    /** The pin grid of `setupScene`: every group at height 0, no depth yet. */
    constructor ()
      ensures Valid() && fresh(pins) && depth == None
      ensures forall i :: 0 <= i < pins.Length ==> pins[i] == 0.0
    {
      pins := new real[GridSize * GridSize](_ => 0.0);
      depth := None;
    }

    /**
      The part of `runInference` after the network has answered: the
      prediction becomes the depth the pins read, and the overlay shows it
      shaded against its own extrema.
    */
    method RunInference(predicted: DepthMap) returns (overlay: array<byte>)
      modifies this`depth
      ensures depth == Some(predicted)
      ensures fresh(overlay) && overlay.Length == 4 * |predicted.data|
      ensures forall i :: 0 <= i < |predicted.data| ==>
        Gray(overlay, i, Shade(predicted.data[i], Min(predicted.data), Max(predicted.data)))
    {
      depth := Some(predicted);
      overlay := Render(predicted.data);
    }

    /**
      `updatePins()`: without depth data or pins nothing changes; otherwise
      every pin group is moved to its height, computed from one scan of the
      whole map and one quadratic sample per pin.
    */
    method UpdatePins()
      requires depth.Some? && pins.Length > 0 ==> Usable(depth.value)
      requires Valid()
      modifies pins
      ensures Valid()
      ensures depth.None? || pins.Length == 0 ==> pins[..] == old(pins[..])
      ensures depth.Some? && pins.Length > 0 ==>
        forall i :: 0 <= i < pins.Length ==> pins[i] == PinHeight(depth.value, i)
    {
      if depth.None? || pins.Length == 0 {
        return;
      }
      var m := depth.value;
      var minVal, maxVal := Scan(m.data);
      var range := maxVal.value - minVal.value;
      var skipX := m.width as real / (GridSize - 1) as real;
      var skipY := m.height as real / (GridSize - 1) as real;
      var i := 0;
      while i < pins.Length
        invariant 0 <= i <= pins.Length
        invariant forall k :: 0 <= k < i ==> pins[k] == PinHeight(m, k)
      {
        pins[i] := LiftPin(m, i, minVal.value, range, skipX, skipY);
        i := i + 1;
      }
    }
  }
}
