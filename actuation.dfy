/**
  What the update loops do to one pin: the part of a scene-graph pin that they
  read and write, and the depth-to-scale mapping of the scale-based variants.
*/
module Actuation {

  /** A pin as the update code sees it: `position.y`, `scale.y` and `userData.originalY`. */
  datatype Pin = Pin(positionY: real, scaleY: real, originalY: real)

  /** `1.0 + depth * 5.0`: the vertical scale of a pin whose normalised depth is `depth`. */
  function HeightScale(depth: real): (s: real)
    ensures 0.0 <= depth <= 1.0 ==> 1.0 <= s <= 6.0
    ensures depth == 0.0 ==> s == 1.0
    ensures depth == 1.0 ==> s == 6.0
  {
    1.0 + depth * 5.0
  }

  /** A deeper sample never gives a shorter pin. */
  lemma HeightScaleMonotone(d1: real, d2: real)
    requires d1 <= d2
    ensures HeightScale(d1) <= HeightScale(d2)
  {
  }

  /**
    `pin.scale.y = heightScale; pin.position.y = pin.userData.originalY * heightScale`:
    the pin is stretched about its original height and nothing else changes.
  */
  function Raise(pin: Pin, depth: real): (p: Pin)
    ensures p.scaleY == HeightScale(depth)
    ensures p.positionY == pin.originalY * p.scaleY
    ensures p.originalY == pin.originalY
  {
    var heightScale := HeightScale(depth);
    pin.(scaleY := heightScale, positionY := pin.originalY * heightScale)
  }

  /**
    Re-applying the same depth leaves the pin as it is: the new height is
    computed from `originalY`, never from the current position.
  */
  lemma RaiseIdempotent(pin: Pin, depth: real)
    ensures Raise(Raise(pin, depth), depth) == Raise(pin, depth)
  {
  }

  /** A raised pin's height lies between one and six times its original height. */
  lemma RaisedHeightBounds(pin: Pin, depth: real)
    requires 0.0 <= depth <= 1.0 && 0.0 <= pin.originalY
    ensures pin.originalY <= Raise(pin, depth).positionY <= 6.0 * pin.originalY
  {
    var s := HeightScale(depth);
    assert pin.originalY * s - pin.originalY == pin.originalY * (s - 1.0);
    assert 6.0 * pin.originalY - pin.originalY * s == pin.originalY * (6.0 - s);
  }

  /** Over a deeper sample a pin standing on a non-negative original height ends up no lower. */
  lemma RaiseMonotone(pin: Pin, d1: real, d2: real)
    requires d1 <= d2 && 0.0 <= pin.originalY
    ensures Raise(pin, d1).positionY <= Raise(pin, d2).positionY
  {
    var s1, s2 := HeightScale(d1), HeightScale(d2);
    assert pin.originalY * s2 - pin.originalY * s1 == pin.originalY * (s2 - s1);
  }
}
