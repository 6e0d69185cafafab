/**
  Depth sampling of the combined variant: a quadratic Lagrange polynomial
  through three samples (`lagrangeInterpolate`) and the 3×3 reconstruction
  built from it (`sampleDepthQuadratic`), which fits one quadratic along x in
  each of three rows and a fourth along y through the three row results.
*/
module Quadratic {
  import opened Raster

  /**
    `lagrangeInterpolate(y0, y1, y2, t)`: the value at `t` of the quadratic
    through `(0, y0)`, `(1, y1)` and `(2, y2)`, summed term by term over the
    Lagrange basis `l_i(t) = Π_{j != i} (t - j) / (i - j)`.
  */
  function Lagrange(y0: real, y1: real, y2: real, t: real): real
  {
    var c0 := y0 * ((t - 1.0) * (t - 2.0)) / ((0.0 - 1.0) * (0.0 - 2.0));
    var c1 := y1 * ((t - 0.0) * (t - 2.0)) / ((1.0 - 0.0) * (1.0 - 2.0));
    var c2 := y2 * ((t - 0.0) * (t - 1.0)) / ((2.0 - 0.0) * (2.0 - 1.0));
    c0 + c1 + c2
  }

  /** The interpolant passes through the three samples. */
  lemma LagrangeAtNodes(y0: real, y1: real, y2: real)
    ensures Lagrange(y0, y1, y2, 0.0) == y0
    ensures Lagrange(y0, y1, y2, 1.0) == y1
    ensures Lagrange(y0, y1, y2, 2.0) == y2
  {
  }

  /**
    Interpolation is exact on quadratics: sampling `a + b t + c t²` at 0, 1, 2
    and interpolating gives the polynomial back at every `t`.
  */
  lemma LagrangeReproducesQuadratics(a: real, b: real, c: real, t: real)
    ensures Lagrange(a, a + b + c, a + 2.0 * b + 4.0 * c, t) == a + b * t + c * t * t
  {
    var w0 := (t - 1.0) * (t - 2.0) / 2.0;
    var w1 := -(t * (t - 2.0));
    var w2 := t * (t - 1.0) / 2.0;
    assert Lagrange(a, a + b + c, a + 2.0 * b + 4.0 * c, t)
        == a * w0 + (a + b + c) * w1 + (a + 2.0 * b + 4.0 * c) * w2;
    assert w0 + w1 + w2 == 1.0;
    assert w1 + 2.0 * w2 == t;
    assert w1 + 4.0 * w2 == t * t;
    assert a * w0 + (a + b + c) * w1 + (a + 2.0 * b + 4.0 * c) * w2
        == a * (w0 + w1 + w2) + b * (w1 + 2.0 * w2) + c * (w1 + 4.0 * w2);
  }

  /** The three basis weights sum to one, so a constant row interpolates to itself. */
  lemma LagrangeConstant(c: real, t: real)
    ensures Lagrange(c, c, c, t) == c
  {
    LagrangeReproducesQuadratics(c, 0.0, 0.0, t);
  }

  /** The Lagrange basis on the nodes 0, 1, 2. */
  function Basis0(t: real): real { (t - 1.0) * (t - 2.0) / 2.0 }
  function Basis1(t: real): real { -(t * (t - 2.0)) }
  function Basis2(t: real): real { t * (t - 1.0) / 2.0 }

  /**
    A sample scaled by a weight. The overshoot bounds below reason about
    weighted samples as whole terms rather than about raw products.
  */
  function Weighted(w: real, y: real): real { w * y }

  /** The interpolant is the basis-weighted sum of the samples, and the weights sum to one. */
  lemma LagrangeIsWeightedSum(y0: real, y1: real, y2: real, t: real)
    ensures Lagrange(y0, y1, y2, t) == Weighted(Basis0(t), y0) + Weighted(Basis1(t), y1) + Weighted(Basis2(t), y2)
    ensures Basis0(t) + Basis1(t) + Basis2(t) == 1.0
  {
  }

  /** On [1, 2] the outer weight lies in [-1/8, 0] and the two others are non-negative. */
  lemma BasisSigns(t: real)
    requires 1.0 <= t <= 2.0
    ensures -1.0 / 8.0 <= Basis0(t) <= 0.0
    ensures 0.0 <= Basis1(t) && 0.0 <= Basis2(t)
  {
    assert -1.0 / 8.0 <= Basis0(t) by {
      assert Basis0(t) == Weighted(t - 1.5, t - 1.5) / 2.0 - 1.0 / 8.0;
      SquareNonNegative(t - 1.5);
    }
    WeightBetween(t - 1.0, t - 2.0, -1.0, 0.0);
    WeightBetween(t, 2.0 - t, 0.0, 1.0);
    WeightBetween(t, t - 1.0, 0.0, 1.0);
  }

  lemma SquareNonNegative(x: real)
    ensures 0.0 <= Weighted(x, x)
  {
    if x < 0.0 { WeightBetweenNeg(x, x, x, 0.0); }
    else { WeightBetween(x, x, 0.0, x); }
  }

  lemma WeightBetween(w: real, y: real, lo: real, hi: real)
    requires 0.0 <= w && lo <= y <= hi
    ensures Weighted(w, lo) <= Weighted(w, y) <= Weighted(w, hi)
  {
    assert w * y - w * lo == w * (y - lo);
    assert w * hi - w * y == w * (hi - y);
  }

  lemma WeightBetweenNeg(w: real, y: real, lo: real, hi: real)
    requires w <= 0.0 && lo <= y <= hi
    ensures Weighted(w, hi) <= Weighted(w, y) <= Weighted(w, lo)
  {
    assert w * y - w * hi == (-w) * (hi - y);
    assert w * lo - w * y == (-w) * (y - lo);
  }

  lemma ComplementWeight(a: real, b: real, c: real, x: real)
    requires a + b + c == 1.0
    ensures Weighted(b, x) + Weighted(c, x) == x - Weighted(a, x)
  {
    assert b * x + c * x == (b + c) * x;
  }

  lemma NegWeightSpread(a: real, lo: real, hi: real)
    requires -1.0 / 8.0 <= a <= 0.0 && lo <= hi
    ensures -(hi - lo) / 8.0 <= Weighted(a, hi) - Weighted(a, lo)
  {
    WeightBetween(hi - lo, -a, 0.0, 1.0 / 8.0);
    assert (hi - lo) * (-a) == a * lo - a * hi;
  }

  /** A weighted sum with weights `a <= 0 <= b, c` summing to one overshoots [lo, hi] by at most an eighth of the range. */
  lemma AffineOvershoot(a: real, b: real, c: real, y0: real, y1: real, y2: real, lo: real, hi: real)
    requires -1.0 / 8.0 <= a <= 0.0 && 0.0 <= b && 0.0 <= c && a + b + c == 1.0
    requires lo <= y0 <= hi && lo <= y1 <= hi && lo <= y2 <= hi
    ensures lo - (hi - lo) / 8.0 <= Weighted(a, y0) + Weighted(b, y1) + Weighted(c, y2) <= hi + (hi - lo) / 8.0
  {
    WeightBetweenNeg(a, y0, lo, hi);
    WeightBetween(b, y1, lo, hi);
    WeightBetween(c, y2, lo, hi);
    ComplementWeight(a, b, c, hi);
    ComplementWeight(a, b, c, lo);
    NegWeightSpread(a, lo, hi);
  }

  /**
    Overshoot bound: for `t` in [1, 2] — where the sampler evaluates — the
    interpolant of samples in [lo, hi] stays within an eighth of the range
    beyond either end (the outer basis weight dips to -1/8 at t = 1.5).
  */
  lemma LagrangeOvershoot(y0: real, y1: real, y2: real, t: real, lo: real, hi: real)
    requires 1.0 <= t <= 2.0
    requires lo <= y0 <= hi && lo <= y1 <= hi && lo <= y2 <= hi
    ensures lo - (hi - lo) / 8.0 <= Lagrange(y0, y1, y2, t) <= hi + (hi - lo) / 8.0
  {
    LagrangeIsWeightedSum(y0, y1, y2, t);
    BasisSigns(t);
    AffineOvershoot(Basis0(t), Basis1(t), Basis2(t), y0, y1, y2, lo, hi);
  }

  /**
    `Math.max(1, Math.min(dim - 2, u))`: the coordinate pulled into the band
    whose points all have a full 3×3 neighbourhood.
  */
  function ClampCoord(u: real, dim: nat): (c: real)
    requires dim >= 3
    ensures 1.0 <= c <= (dim - 2) as real
    ensures 1.0 <= u <= (dim - 2) as real ==> c == u
  {
    var m := if (dim - 2) as real < u then (dim - 2) as real else u;
    if 1.0 > m then 1.0 else m
  }

  /**
    The top-left corner `x0 = Math.floor(c) - 1` of the 3×3 block around a
    clamped coordinate `c`, and the offset `f = c - x0` at which the row
    polynomials are evaluated: the block lies inside the axis and `f` in [1, 2).
  */
  function Stencil(c: real, dim: nat): (s: (int, real))
    requires dim >= 3 && 1.0 <= c <= (dim - 2) as real
    ensures 0 <= s.0 && s.0 + 2 <= dim - 1
    ensures 1.0 <= s.1 < 2.0
    ensures s.0 as real + s.1 == c
  {
    var x0 := c.Floor - 1;
    (x0, c - x0 as real)
  }

  /** The accessor `d(x, y) = data[y * w + x]`, defined on every pixel of the map. */
  function At(data: seq<real>, w: nat, h: nat, x: int, y: int): real
    requires |data| == w * h && 0 <= x < w && 0 <= y < h
  {
    RowMajorInBounds(x, y, w, h);
    data[y * w + x]
  }

  /** The interpolation along x through the three samples of row `y` starting at column `x0`. */
  function Row(data: seq<real>, w: nat, h: nat, x0: int, y: int, fx: real): real
    requires |data| == w * h && 0 <= x0 && x0 + 2 < w && 0 <= y < h
  {
    Lagrange(At(data, w, h, x0, y), At(data, w, h, x0 + 1, y), At(data, w, h, x0 + 2, y), fx)
  }

  /**
    `sampleDepthQuadratic(u, v, data, w, h)`: clamps `(u, v)` into
    `[1, w-2] × [1, h-2]`, then interpolates the nine samples around it; every
    read is a pixel of the map, whatever `u` and `v` are.
  */
  function SampleDepthQuadratic(u: real, v: real, data: seq<real>, w: nat, h: nat): real
    requires w >= 3 && h >= 3 && |data| == w * h
  {
    var u := ClampCoord(u, w);
    var v := ClampCoord(v, h);
    var (x0, fx) := Stencil(u, w);
    var (y0, fy) := Stencil(v, h);
    var y1, y2 := y0 + 1, y0 + 2;
    var row0 := Row(data, w, h, x0, y0, fx);
    var row1 := Row(data, w, h, x0, y1, fx);
    var row2 := Row(data, w, h, x0, y2, fx);
    Lagrange(row0, row1, row2, fy)
  }

  /**
    Exactness at nodes: at an integer interior point the reconstruction
    returns the stored sample itself (interpolation, not smoothing).
  */
  lemma SampleAtNode(data: seq<real>, w: nat, h: nat, x: int, y: int)
    requires w >= 3 && h >= 3 && |data| == w * h
    requires 1 <= x <= w - 2 && 1 <= y <= h - 2
    ensures SampleDepthQuadratic(x as real, y as real, data, w, h) == At(data, w, h, x, y)
  {
    assert ClampCoord(x as real, w) == x as real;
    assert ClampCoord(y as real, h) == y as real;
    assert Stencil(x as real, w) == (x - 1, 1.0);
    assert Stencil(y as real, h) == (y - 1, 1.0);
  }

  /**
    On a row of nodes (`v` clamps to an integer) the reconstruction is the
    interpolation along x of the middle row of its block.
  */
  lemma SampleOnRowNode(u: real, v: real, data: seq<real>, w: nat, h: nat)
    requires w >= 3 && h >= 3 && |data| == w * h
    requires Stencil(ClampCoord(v, h), h).1 == 1.0
    ensures var (x0, fx) := Stencil(ClampCoord(u, w), w);
      SampleDepthQuadratic(u, v, data, w, h) == Row(data, w, h, x0, Stencil(ClampCoord(v, h), h).0 + 1, fx)
  {
    var (x0, fx) := Stencil(ClampCoord(u, w), w);
    var y0 := Stencil(ClampCoord(v, h), h).0;
    LagrangeAtNodes(Row(data, w, h, x0, y0, fx), Row(data, w, h, x0, y0 + 1, fx), Row(data, w, h, x0, y0 + 2, fx));
  }

  /** A query outside the band reads the same block as its clamped point. */
  lemma SampleClamps(u: real, v: real, data: seq<real>, w: nat, h: nat)
    requires w >= 3 && h >= 3 && |data| == w * h
    ensures SampleDepthQuadratic(u, v, data, w, h)
         == SampleDepthQuadratic(ClampCoord(u, w), ClampCoord(v, h), data, w, h)
  {
  }

  /**
    Boundedness: on a map whose samples lie in [lo, hi] the reconstruction
    overshoots by at most 9/32 of the range (1/8 along x, then 1/8 of the
    widened range along y).
  */
  lemma SampleOvershoot(u: real, v: real, data: seq<real>, w: nat, h: nat, lo: real, hi: real)
    requires w >= 3 && h >= 3 && |data| == w * h
    requires forall i :: 0 <= i < |data| ==> lo <= data[i] <= hi
    ensures lo - 9.0 * (hi - lo) / 32.0 <= SampleDepthQuadratic(u, v, data, w, h) <= hi + 9.0 * (hi - lo) / 32.0
  {
    var cu := ClampCoord(u, w);
    var cv := ClampCoord(v, h);
    var (x0, fx) := Stencil(cu, w);
    var (y0, fy) := Stencil(cv, h);
    var r := hi - lo;
    RowOvershoot(data, w, h, x0, y0, fx, lo, hi);
    RowOvershoot(data, w, h, x0, y0 + 1, fx, lo, hi);
    RowOvershoot(data, w, h, x0, y0 + 2, fx, lo, hi);
    LagrangeOvershoot(Row(data, w, h, x0, y0, fx), Row(data, w, h, x0, y0 + 1, fx), Row(data, w, h, x0, y0 + 2, fx),
                      fy, lo - r / 8.0, hi + r / 8.0);
  }

  /** One row interpolation of the 3×3 block stays within an eighth of the range. */
  lemma RowOvershoot(data: seq<real>, w: nat, h: nat, x0: int, y: int, fx: real, lo: real, hi: real)
    requires |data| == w * h && 0 <= x0 && x0 + 2 < w && 0 <= y < h && 1.0 <= fx <= 2.0
    requires forall i :: 0 <= i < |data| ==> lo <= data[i] <= hi
    ensures lo - (hi - lo) / 8.0 <= Row(data, w, h, x0, y, fx) <= hi + (hi - lo) / 8.0
  {
    RowMajorInBounds(x0, y, w, h);
    RowMajorInBounds(x0 + 1, y, w, h);
    RowMajorInBounds(x0 + 2, y, w, h);
    LagrangeOvershoot(At(data, w, h, x0, y), At(data, w, h, x0 + 1, y), At(data, w, h, x0 + 2, y), fx, lo, hi);
  }
}
