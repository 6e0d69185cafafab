/**
  The one-shot variant (o1-combined-one-shot/main.js): a depth map arrives
  with every inference, and on every animation frame each pin of an 80×80
  grid is stretched by the nearest sample under its cell's centre, normalised
  by the extrema of the whole map.
*/
module OneShotDemo {
  import opened Wrappers
  import opened Raster
  import opened Extrema
  import opened Actuation
  import opened Overlay

  /** Pins per row and per column. */
  const GridSize: nat := 80

  /** A pin as built by `setupScene`: `position.y = pinHeight / 2` with `pinHeight = 1`, unit scale. */
  const RestingPin: Pin := Pin(0.5, 1.0, 0.5)

  /**
    A depth map the update can use: one sample per pixel of a non-empty map,
    and not flat (the update divides by the range unguarded).
  */
  predicate Usable(m: DepthMap) {
    m.width > 0 && m.height > 0 && m.WellFormed() && Min(m.data) < Max(m.data)
  }

  /**
    Normalised depth under pin `i`: the sample at the (clamped) floor of its
    cell's centre, `(rawD - minVal) / range`, a value in [0, 1].
  */
  function PinDepth(m: DepthMap, i: nat): (d: real)
    requires Usable(m)
    ensures 0.0 <= d <= 1.0
  {
    var k := SampleIndex(i, m.width, m.height, GridSize);
    MinIsMinimum(m.data);
    MaxIsMaximum(m.data);
    Normalize(m.data[k], Min(m.data), Max(m.data))
  }

  /** The pins after one update pass over `m`: each stretched by its own sample. */
  function RaisedPins(pins: seq<Pin>, m: DepthMap): (r: seq<Pin>)
    requires Usable(m)
    ensures |r| == |pins|
    ensures forall i :: 0 <= i < |r| ==>
      1.0 <= r[i].scaleY <= 6.0 && r[i].positionY == pins[i].originalY * r[i].scaleY && r[i].originalY == pins[i].originalY
  {
    seq(|pins|, i requires 0 <= i < |pins| => Raise(pins[i], PinDepth(m, i)))
  }

  /**
    The pin standing on the map's smallest sample keeps its original height
    and the one on its largest sample is stretched six-fold.
  */
  lemma ExtremePins(m: DepthMap, i: nat, pin: Pin)
    requires Usable(m)
    ensures m.data[SampleIndex(i, m.width, m.height, GridSize)] == Min(m.data) ==>
      Raise(pin, PinDepth(m, i)).positionY == pin.originalY
    ensures m.data[SampleIndex(i, m.width, m.height, GridSize)] == Max(m.data) ==>
      Raise(pin, PinDepth(m, i)).positionY == 6.0 * pin.originalY
  {
  }

  /** A pin over a deeper sample is never shorter than one over a shallower sample. */
  lemma DeeperSampleTallerPin(m: DepthMap, i: nat, j: nat, pin: Pin)
    requires Usable(m) && 0.0 <= pin.originalY
    requires m.data[SampleIndex(i, m.width, m.height, GridSize)] <= m.data[SampleIndex(j, m.width, m.height, GridSize)]
    ensures Raise(pin, PinDepth(m, i)).positionY <= Raise(pin, PinDepth(m, j)).positionY
  {
    NormalizeMonotone(m.data[SampleIndex(i, m.width, m.height, GridSize)],
                      m.data[SampleIndex(j, m.width, m.height, GridSize)], Min(m.data), Max(m.data));
    RaiseMonotone(pin, PinDepth(m, i), PinDepth(m, j));
  }

  /**
    The index arithmetic of updatePins' loop for pin `i`: grid cell, the floor
    of the cell's centre, the clamp into the map, and the row-major index.
  */
  method PixelOfPin(i: nat, m: DepthMap, skipX: real, skipY: real) returns (idx: nat)
    requires Usable(m)
    requires skipX == m.width as real / GridSize as real && skipY == m.height as real / GridSize as real
    ensures idx == SampleIndex(i, m.width, m.height, GridSize) && idx < |m.data|
  {
    var gx := i % GridSize;
    var gy := i / GridSize;
    var x := ((gx as real + 0.5) * skipX).Floor;
    var y := ((gy as real + 0.5) * skipY).Floor;
    assert x == CellCentre(GridX(i, GridSize), m.width, GridSize);
    assert y == CellCentre(GridY(i, GridSize), m.height, GridSize);
    var safeX := Clamp(x, 0, m.width - 1);
    var safeY := Clamp(y, 0, m.height - 1);
    assert safeX == SafeCoord(GridX(i, GridSize), m.width, GridSize);
    assert safeY == SafeCoord(GridY(i, GridSize), m.height, GridSize);
    idx := safeY * m.width + safeX;
  }

  /**
    The body of updatePins' loop for pin `i`: the sample under the pin, its
    normalisation, and the pin's new scale and height.
  */
  method LiftPin(pin: Pin, i: nat, m: DepthMap, minVal: real, range: real, skipX: real, skipY: real)
    returns (updated: Pin)
    requires Usable(m) && minVal == Min(m.data) && range == Max(m.data) - minVal
    requires skipX == m.width as real / GridSize as real && skipY == m.height as real / GridSize as real
    ensures updated == Raise(pin, PinDepth(m, i))
  {
    var idx := PixelOfPin(i, m, skipX, skipY);
    var rawD := m.data[idx];
    var norm := (rawD - minVal) / range;
    assert norm == PinDepth(m, i);
    var heightScale := 1.0 + norm * 5.0;
    updated := pin.(scaleY := heightScale, positionY := pin.originalY * heightScale);
  }

  /** The globals of o1-combined-one-shot/main.js that the depth-to-pin path reads and writes. */
  class OneShotScene {
    var pins: array<Pin>
    /** `depthData` with `depthWidth` and `depthHeight`, once an inference has finished. */
    var depth: Option<DepthMap>

    ghost predicate Valid()
      reads this
    {
      pins.Length == GridSize * GridSize
    }

    /** The pin grid of `setupScene`: every pin at rest, no depth yet. */
    constructor ()
      ensures Valid() && fresh(pins) && depth == None
      ensures forall i :: 0 <= i < pins.Length ==> pins[i] == RestingPin
    {
      pins := new Pin[GridSize * GridSize](_ => RestingPin);
      depth := None;
    }

    /**
      The part of `runInference` after the network has answered: the
      prediction becomes the depth the pins read, and the overlay shows it
      shaded against its own extrema.
    */
    method RunInference(predicted: DepthMap) returns (overlay: array<byte>)
      modifies this`depth
      ensures depth == Some(predicted)
      ensures fresh(overlay) && overlay.Length == 4 * |predicted.data|
      ensures forall i :: 0 <= i < |predicted.data| ==>
        Gray(overlay, i, Shade(predicted.data[i], Min(predicted.data), Max(predicted.data)))
    {
      depth := Some(predicted);
      overlay := Render(predicted.data);
    }

    /**
      `updatePins()`: without depth data or pins nothing changes; otherwise
      every pin is stretched by the sample under its cell, normalised by one
      scan of the whole map. Every frame recomputes the pins from
      `originalY`, so repeating the update changes nothing.
    */
    method UpdatePins()
      requires depth.Some? && pins.Length > 0 ==> Usable(depth.value)
      requires Valid()
      modifies pins
      ensures Valid()
      ensures if depth.Some? && pins.Length > 0
              then pins[..] == RaisedPins(old(pins[..]), depth.value)
              else pins[..] == old(pins[..])
    {
      if depth.None? || pins.Length == 0 {
        return;
      }
      var m := depth.value;
      var minVal, maxVal := Scan(m.data);
      var range := maxVal.value - minVal.value;
      var skipX := m.width as real / GridSize as real;
      var skipY := m.height as real / GridSize as real;
      var i := 0;
      while i < pins.Length
        invariant 0 <= i <= pins.Length
        invariant forall k :: 0 <= k < i ==> pins[k] == Raise(old(pins[k]), PinDepth(m, k))
        invariant forall k :: i <= k < pins.Length ==> pins[k] == old(pins[k])
      {
        pins[i] := LiftPin(pins[i], i, m, minVal.value, range, skipX, skipY);
        i := i + 1;
      }
      assert pins[..] == RaisedPins(old(pins[..]), m) by {
        var raised := RaisedPins(old(pins[..]), m);
        forall k | 0 <= k < pins.Length
          ensures pins[k] == raised[k]
        {
        }
      }
    }
  }

  /** A second update over the same map leaves every pin where the first put it. */
  lemma UpdateIdempotent(pins: seq<Pin>, m: DepthMap)
    requires Usable(m)
    ensures RaisedPins(RaisedPins(pins, m), m) == RaisedPins(pins, m)
  {
    var once := RaisedPins(pins, m);
    var twice := RaisedPins(once, m);
    forall i | 0 <= i < |pins|
      ensures twice[i] == once[i]
    {
      RaiseIdempotent(pins[i], PinDepth(m, i));
    }
  }
}
