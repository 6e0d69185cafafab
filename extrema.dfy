/**
  The global minimum/maximum scan over a depth buffer and the normalisation
  `(v - min) / range` built on it.  The JavaScript loops seed their running
  extrema with `Infinity` and `-Infinity`; `Bound` keeps those seeds.
*/
module Extrema {

  /** A running extremum: one of the two infinite seeds, or a sample value. */
  datatype Bound = NegInf | Finite(value: real) | PosInf

  /** `v < b` with `b` possibly infinite. */
  predicate Below(v: real, b: Bound) {
    match b
    case NegInf => false
    case Finite(m) => v < m
    case PosInf => true
  }

  /** `v > b` with `b` possibly infinite. */
  predicate Above(v: real, b: Bound) {
    match b
    case NegInf => true
    case Finite(m) => v > m
    case PosInf => false
  }

  /** The smallest sample of a non-empty buffer, folded from the front as the scan does. */
  function Min(s: seq<real>): real
    requires |s| > 0
  {
    if |s| == 1 then s[0]
    else
      var rest := Min(s[..|s| - 1]);
      if s[|s| - 1] < rest then s[|s| - 1] else rest
  }

  /** The largest sample of a non-empty buffer, folded from the front as the scan does. */
  function Max(s: seq<real>): real
    requires |s| > 0
  {
    if |s| == 1 then s[0]
    else
      var rest := Max(s[..|s| - 1]);
      if s[|s| - 1] > rest then s[|s| - 1] else rest
  }

  /** `Min` is a lower bound of the buffer and one of its samples. */
  lemma {:induction false} MinIsMinimum(s: seq<real>)
    requires |s| > 0
    ensures forall i :: 0 <= i < |s| ==> Min(s) <= s[i]
    ensures exists i :: 0 <= i < |s| && Min(s) == s[i]
  {
    if |s| > 1 {
      var init := s[..|s| - 1];
      MinIsMinimum(init);
      assert forall i :: 0 <= i < |init| ==> init[i] == s[i];
      var k :| 0 <= k < |init| && Min(init) == init[k];
      if s[|s| - 1] >= Min(init) {
        assert Min(s) == s[k];
      } else {
        assert Min(s) == s[|s| - 1];
      }
    } else {
      assert Min(s) == s[0];
    }
  }

  /** `Max` is an upper bound of the buffer and one of its samples. */
  lemma {:induction false} MaxIsMaximum(s: seq<real>)
    requires |s| > 0
    ensures forall i :: 0 <= i < |s| ==> s[i] <= Max(s)
    ensures exists i :: 0 <= i < |s| && Max(s) == s[i]
  {
    if |s| > 1 {
      var init := s[..|s| - 1];
      MaxIsMaximum(init);
      assert forall i :: 0 <= i < |init| ==> init[i] == s[i];
      var k :| 0 <= k < |init| && Max(init) == init[k];
      if s[|s| - 1] <= Max(init) {
        assert Max(s) == s[k];
      } else {
        assert Max(s) == s[|s| - 1];
      }
    } else {
      assert Max(s) == s[0];
    }
  }

  /**
    The scan `for (i ...) { if (v < minVal) minVal = v; if (v > maxVal) maxVal = v; }`
    seeded with `Infinity` / `-Infinity`: on an empty buffer the seeds survive,
    otherwise both extrema are finite, bound every sample and are attained.
  */
  method Scan(data: seq<real>) returns (minVal: Bound, maxVal: Bound)
    ensures |data| == 0 ==> minVal == PosInf && maxVal == NegInf
    ensures |data| > 0 ==> minVal == Finite(Min(data)) && maxVal == Finite(Max(data))
    ensures |data| > 0 ==> forall i :: 0 <= i < |data| ==> minVal.value <= data[i] <= maxVal.value
  {
    minVal := PosInf;
    maxVal := NegInf;
    var i := 0;
    while i < |data|
      invariant 0 <= i <= |data|
      invariant i == 0 ==> minVal == PosInf && maxVal == NegInf
      invariant i > 0 ==> minVal == Finite(Min(data[..i])) && maxVal == Finite(Max(data[..i]))
    {
      var v := data[i];
      assert data[..i + 1][..i] == data[..i];
      if Below(v, minVal) { minVal := Finite(v); }
      if Above(v, maxVal) { maxVal := Finite(v); }
      i := i + 1;
    }
    assert data[..i] == data;
    if |data| > 0 {
      MinIsMinimum(data);
      MaxIsMaximum(data);
    }
  }

  /** `(v - lo) / (hi - lo)`: a sample's position within the buffer's range. */
  function Normalize(v: real, lo: real, hi: real): (n: real)
    requires lo < hi
    ensures lo <= v <= hi ==> 0.0 <= n <= 1.0
    ensures v == lo ==> n == 0.0
    ensures v == hi ==> n == 1.0
  {
    Quotient(v - lo, hi - lo);
    (v - lo) / (hi - lo)
  }

  /** Facts about dividing by a positive whole. */
  lemma Quotient(x: real, r: real)
    requires 0.0 < r
    ensures 0.0 <= x ==> 0.0 <= x / r
    ensures x <= r ==> x / r <= 1.0
    ensures x == 0.0 ==> x / r == 0.0
    ensures x == r ==> x / r == 1.0
  {
  }

  /** Normalisation keeps the order of the samples. */
  lemma NormalizeMonotone(v1: real, v2: real, lo: real, hi: real)
    requires lo < hi && v1 <= v2
    ensures Normalize(v1, lo, hi) <= Normalize(v2, lo, hi)
  {
    QuotientMonotone(v1 - lo, v2 - lo, hi - lo);
  }

  lemma QuotientMonotone(x1: real, x2: real, r: real)
    requires 0.0 < r && x1 <= x2
    ensures x1 / r <= x2 / r
  {
    assert x2 / r - x1 / r == (x2 - x1) / r;
    Quotient(x2 - x1, r);
  }

  /** A quotient by a positive whole lies between `a` and `b` when the part lies between `a` and `b` wholes. */
  lemma QuotientBetween(x: real, r: real, a: real, b: real)
    requires 0.0 < r && a * r <= x <= b * r
    ensures a <= x / r <= b
  {
    var q := x / r;
    assert q * r == x;
    assert (q - a) * r == x - a * r;
    assert (b - q) * r == b * r - x;
    if q < a { NegativeProduct(q - a, r); }
    if q > b { NegativeProduct(b - q, r); }
  }

  lemma NegativeProduct(a: real, r: real)
    requires a < 0.0 && 0.0 < r
    ensures a * r < 0.0
  {
  }
}
