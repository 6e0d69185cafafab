/**
  Input preparation of the single-frame variant (main.js `preprocess`): an
  interleaved RGBA frame becomes three planes of channel values in [0, 1] —
  all reds, then all greens, then all blues — as the depth network expects.
*/
module Preprocess {
  import opened Raster

  /** Channel `c` of pixel `p` of an RGBA frame, scaled by 1/255. */
  function Channel(data: seq<byte>, p: nat, c: nat): (v: real)
    requires c < 4 && 4 * p + c < |data|
    ensures 0.0 <= v <= 1.0
  {
    data[4 * p + c] as real / 255.0
  }

  /**
    Counter arithmetic of the alpha-stripping loop.  Before byte `i - 1` is
    looked at, `j` bytes have been kept; a kept byte (`i % 4 != 0`) is channel
    `j % 3` of pixel `j / 3`, and lands below `3 * n` when the frame has `n` pixels.
  */
  lemma KeptByte(i: nat, n: nat)
    requires 1 <= i <= 4 * n && i % 4 != 0
    ensures var j := (i - 1) - (i - 1) / 4;
      && 4 * (j / 3) + j % 3 == i - 1
      && j % 3 < 3
      && j < 3 * n
      && i - i / 4 == j + 1
  {
    var q, r := (i - 1) / 4, (i - 1) % 4;
    assert i - 1 == 4 * q + r && r < 3;
    var j := (i - 1) - (i - 1) / 4;
    assert j == 3 * q + r;
    assert j / 3 == q && j % 3 == r;
  }

  /** A skipped (alpha) byte keeps the count of kept bytes in step. */
  lemma SkippedByte(i: nat)
    requires 1 <= i && i % 4 == 0
    ensures i - i / 4 == (i - 1) - (i - 1) / 4
  {
    assert (i - 1) / 4 == i / 4 - 1;
  }

  /**
    The alpha-stripping loop of preprocess: a fresh buffer of `3 * n` values
    holding the R, G and B bytes of each pixel, in their interleaved order,
    scaled by 1/255; the loop's counter `j` ends at `3 * n`.
  */
  method StripAlpha(data: seq<byte>, n: nat) returns (floatArr: array<real>)
    requires |data| == 4 * n
    ensures fresh(floatArr) && floatArr.Length == 3 * n
    ensures forall k :: 0 <= k < 3 * n ==> floatArr[k] == Channel(data, k / 3, k % 3)
  {
    floatArr := new real[n * 3];
    var j := 0;
    var i := 1;
    while i < |data| + 1
      invariant 1 <= i <= |data| + 1
      invariant j == (i - 1) - (i - 1) / 4
      invariant forall k :: 0 <= k < j ==> floatArr[k] == Channel(data, k / 3, k % 3)
    {
      if i % 4 != 0 {
        KeptByte(i, n);
        floatArr[j] := data[i - 1] as real / 255.0;
        j := j + 1;
      } else {
        SkippedByte(i);
      }
      i := i + 1;
    }
    assert j == 3 * n;
  }

  /**
    One of preprocess's three de-interleaving loops: it walks `floatArr` from
    index `c` in steps of 3 and writes the values one after another into
    `planar` from index `start` (the previous loop's final counter, `c * n`).
    It returns its own final counter; nothing outside the plane changes.
  */
  method FillPlane(floatArr: array<real>, planar: array<real>, c: nat, start: nat, n: nat) returns (next: nat)
    requires floatArr != planar && c < 3 && start == c * n
    requires floatArr.Length == 3 * n && planar.Length == 3 * n
    modifies planar
    ensures next == start + n
    ensures forall p :: 0 <= p < n ==> planar[start + p] == floatArr[3 * p + c]
    ensures forall k :: 0 <= k < planar.Length && !(start <= k < next) ==> planar[k] == old(planar[k])
  {
    next := start;
    var i := c;
    while i < floatArr.Length
      invariant start <= next <= start + n && i == c + 3 * (next - start)
      invariant forall p :: 0 <= p < next - start ==> planar[start + p] == floatArr[3 * p + c]
      invariant forall k :: 0 <= k < planar.Length && !(start <= k < next) ==> planar[k] == old(planar[k])
    {
      planar[next] := floatArr[i];
      next := next + 1;
      i := i + 3;
    }
  }

  /**
    `preprocess(imageData, width, height)`: drops every fourth (alpha) byte,
    scales the rest by 1/255 and de-interleaves them, so that channel `c` of
    pixel `p` ends up at `c * width * height + p`.
  */
  method Preprocess(data: seq<byte>, width: nat, height: nat) returns (planar: array<real>)
    requires |data| == 4 * (width * height)
    ensures planar.Length == 3 * (width * height)
    ensures forall p :: 0 <= p < width * height ==> planar[p] == Channel(data, p, 0)
    ensures forall p :: 0 <= p < width * height ==> planar[width * height + p] == Channel(data, p, 1)
    ensures forall p :: 0 <= p < width * height ==> planar[2 * (width * height) + p] == Channel(data, p, 2)
    ensures forall k :: 0 <= k < planar.Length ==> 0.0 <= planar[k] <= 1.0
  {
    var n := width * height;
    var floatArr := StripAlpha(data, n);
    planar := new real[n * 3];
    var k := FillPlane(floatArr, planar, 0, 0, n);
    var l := FillPlane(floatArr, planar, 1, k, n);
    var m := FillPlane(floatArr, planar, 2, l, n);
    forall p | 0 <= p < n
      ensures planar[p] == Channel(data, p, 0)
      ensures planar[n + p] == Channel(data, p, 1)
      ensures planar[2 * n + p] == Channel(data, p, 2)
    {
      PlaneSlot(p, 0);
      PlaneSlot(p, 1);
      PlaneSlot(p, 2);
    }
    forall k | 0 <= k < planar.Length
      ensures 0.0 <= planar[k] <= 1.0
    {
      if k < n {
        assert planar[k] == Channel(data, k, 0);
      } else if k < 2 * n {
        assert planar[n + (k - n)] == Channel(data, k - n, 1);
      } else {
        assert planar[2 * n + (k - 2 * n)] == Channel(data, k - 2 * n, 2);
      }
    }
  }

  /** Slot `3 * p + c` of the stripped buffer is channel `c` of pixel `p`. */
  lemma PlaneSlot(p: nat, c: nat)
    requires c < 3
    ensures (3 * p + c) / 3 == p && (3 * p + c) % 3 == c
  {
  }
}
