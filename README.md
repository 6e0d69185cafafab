# metal-pin: depth map to pin field

metal-pin is a browser demo. It runs monocular depth estimation on a webcam
frame and shows the result as a field of "metal pins": a grid of cylinders
whose heights follow the depth map. The repository holds three variants of
the demo. This project models the depth-handling core of each one:

- **main.js** is the single-frame variant:
  - `preprocess` turns an RGBA frame into three planes of channel values in [0, 1].
  - `postprocess` turns the network's depth tensor into a gray RGBA image, scaled by the tensor's range.
  - `updatePins` runs once, after that image exists. It stretches each of the 40×40 pins by the red byte under its cell's centre.
- **combined/main.js** is a live variant:
  - `lagrangeInterpolate` and `sampleDepthQuadratic` reconstruct depth quadratically from a 3×3 neighbourhood.
  - On every frame, `updatePins` moves each of the 120×120 pin groups to `5 * norm`. Here `norm` is the reconstructed depth normalised by the map's extrema.
  - `runInference` draws the inverted gray overlay.
- **o1-combined-one-shot/main.js** is a second live variant:
  - `updatePins` stretches each of the 80×80 pins by the nearest sample under its cell's centre.
  - `runInference` draws the same overlay.

The modules follow that structure:

- `Raster` holds bytes, the `Uint8ClampedArray` store, `Math.round`, clamping, row-major indices and the two maps from a grid cell to a map position.
- `Extrema` holds the ±Infinity-seeded min/max scan and the normalisation.
- `Actuation` models a pin and the `1 + 5 * depth` stretch.
- `Preprocess`, `MainDemo`, `Quadratic`, `Overlay`, `CombinedDemo` and `OneShotDemo` each model one part of the source, as their names say.

Some JavaScript behaviour is written out explicitly:

- **Infinite seeds.** The running extrema's `Infinity`/`-Infinity` seeds are the datatype `Extrema.Bound`.
- **Clamped stores.** A store into a `Uint8ClampedArray` clamps to [0, 255] and rounds half to even. A NaN is stored as 0.
- **Rounding.** `Math.round` rounds halves up.
- **NaN levels.** A level is NaN exactly when the range is 0, and the model writes 0 for it, as the byte store does.
  - In `postprocess` that needs `max_depth == min_depth`: a flat map whose value is at least 0. Because `max_depth` is seeded with 0, a flat map of negative samples has a non-zero range and every level is 0 without any NaN (`MainDemo.Level`).
  - In the overlay every flat map gives NaN (`Overlay.Shade`).

Two loops are split out of their callers, each with its own contract:

- The scene-graph update loops are methods over arrays held by a class per variant: `MainScene`, `CombinedScene`, `OneShotScene`.
- The nested row loops of `postprocess` are `ScanRow`/`PaintRow` inside `DepthRange`/`Postprocess`.

Behaviour of the code worth knowing, all stated as lemmas:

- **main.js.** The maximum of `postprocess` is seeded with 0, not `-Infinity`, so an all-negative map is scaled against 0 (`MaxDepthIsSeededMax`).
- **combined.** Pin heights are not confined to [0, 5]:
  - The quadratic reconstruction may overshoot the map's extrema, by at most 9/32 of the range (`SampleOvershoot`), so heights lie in [-45/32, 5 + 45/32] (`PinHeightBounds`).
  - The overshoot does happen. On a 4×3 map whose rows read 1, 0, 0, 0, pin group 30 samples where the row quadratic dips below 0, and it is placed below height 0 (`PinBelowFloor`).
  - Its grid spacing `depthWidth / (gridSize - 1)` combined with the `+ 0.5` centring puts the last column of pins past the map's right edge. Only the sampler's clamp keeps those reads inside the buffer (`LastColumnClamped`).
- **main.js and o1.** The cell centres lie inside the image, so there the clamp never changes a coordinate (`Raster.SafeCoord`).

## Model

| member | source | states |
|---|---|---|
| Raster.PutGray | main.js:100-104 | the four stores of one pixel make it the opaque gray `level` (R = G = B = level, A = 255) and leave every other byte as it was |
| Raster.JsRound | main.js:101 | `Math.round(x)` is the integer within half a unit of `x`, with halves going up |
| Raster.Uint8Clamp | o1-combined-one-shot/main.js:213-216 | a store into a `Uint8ClampedArray` keeps values ≤ 0 as 0 and values ≥ 255 as 255, and stores any other value within half a unit; integers are stored exactly |
| Raster.Uint8ClampMonotone | combined/main.js:337-341 | storing a larger number never stores a smaller byte |
| Raster.Clamp | main.js:320-321 | `Math.min(Math.max(x, lo), hi)` lies in [lo, hi] and is `x` when `x` already does |
| Raster.GridX | main.js:312 | definition (`index % gridSize`); properties in `Raster.GridCellInRange` |
| Raster.GridY | main.js:313 | definition (`Math.floor(index / gridSize)`); properties in `Raster.GridCellInRange` |
| Raster.GridCellInRange | main.js:312-313 | `index % gridSize` and `Math.floor(index / gridSize)` name a cell of the grid, and together they give back the index |
| Raster.CellCentre | main.js:316-317 | definition (`Math.floor((g + 0.5) * (dim / gridSize))`); properties in `Raster.CellCentreInImage` and `Raster.SafeCoord` |
| Raster.CellCentreInImage | main.js:316-317 | with `skip = dim / gridSize`, `Math.floor((g + 0.5) * skip)` is already a pixel of the image for every cell |
| Raster.SafeCoord | o1-combined-one-shot/main.js:149-154 | the clamped centre is a pixel of the image, and for cells of the grid it equals the unclamped centre |
| Raster.SampleIndex | main.js:314-323 | the sampled index is inside the map and, for every pin of the grid, is `centreY * width + centreX` |
| Raster.SpanCoord | combined/main.js:283-284 | definition (`(g + 0.5) * (dim / (gridSize - 1))`); properties in `Raster.LastSpanCoordBeyondImage` and `CombinedDemo.LastColumnClamped` |
| Raster.LastSpanCoordBeyondImage | combined/main.js:275-284 | with `skip = dim / (gridSize - 1)`, the last cell's position `(gridSize - 0.5) * skip` lies beyond `dim` |
| Extrema.Min | combined/main.js:266-272 | definition (the minimum folded from the front, as the scan does); properties in `Extrema.MinIsMinimum` and `Extrema.Scan` |
| Extrema.Max | combined/main.js:266-272 | definition (the maximum folded from the front, as the scan does); properties in `Extrema.MaxIsMaximum` and `Extrema.Scan` |
| Extrema.MinIsMinimum | combined/main.js:266-272 | the scanned minimum of a non-empty buffer bounds every sample and is one of them |
| Extrema.MaxIsMaximum | combined/main.js:266-272 | the scanned maximum of a non-empty buffer bounds every sample and is one of them |
| Extrema.Scan | o1-combined-one-shot/main.js:131-138 | the `Infinity`/`-Infinity`-seeded scan leaves its seeds on an empty buffer; otherwise it yields the buffer's minimum and maximum, which bound every sample |
| Extrema.Normalize | o1-combined-one-shot/main.js:157-159 | `(v - min) / range` lies in [0, 1] for samples in range, is 0 at the minimum and 1 at the maximum |
| Extrema.NormalizeMonotone | combined/main.js:287 | normalisation keeps the order of samples |
| Actuation.HeightScale | main.js:336 | `1 + depth * 5` lies in [1, 6] for depths in [0, 1], with 1 at depth 0 and 6 at depth 1 |
| Actuation.HeightScaleMonotone | o1-combined-one-shot/main.js:162 | a deeper sample never gives a smaller scale |
| Actuation.Raise | main.js:336-338 | the pin's scale becomes the height scale and its height `originalY * scale`; `originalY` is kept |
| Actuation.RaiseIdempotent | main.js:338 | raising twice by the same depth is raising once: the height is computed from `originalY`, never from the current height |
| Actuation.RaisedHeightBounds | o1-combined-one-shot/main.js:161-164 | a raised pin stands between one and six times its original height |
| Actuation.RaiseMonotone | o1-combined-one-shot/main.js:161-164 | a pin raised by a larger depth stands no lower |
| Preprocess.Channel | main.js:39 | a channel byte divided by 255 lies in [0, 1] |
| Preprocess.StripAlpha | main.js:36-42 | the `i % 4 != 0` loop keeps the R, G, B bytes of every pixel in order, scaled by 1/255: slot `k` is channel `k % 3` of pixel `k / 3`, and `3n` slots are written |
| Preprocess.FillPlane | main.js:44-58 | each stride-3 loop copies channel `c` of every pixel into consecutive slots from its start counter, returns `start + n` as the next loop's counter, and writes nothing else |
| Preprocess.Preprocess | main.js:31-60 | the result is planar: channel `c` of pixel `p` sits at `c * w * h + p`, and every value lies in [0, 1] |
| MainDemo.MaxDepth | main.js:78-89 | definition (the running maximum seeded with 0); properties in `MainDemo.MaxDepthIsSeededMax` and `MainDemo.DepthRange` |
| MainDemo.MaxDepthIsSeededMax | main.js:78-89 | `max_depth`, seeded with 0, is non-negative and bounds every sample; it is 0 on an empty tensor and otherwise the larger of the true maximum and 0 |
| MainDemo.ScanRow | main.js:83-88 | one row of the range scan extends the scanned prefix by that row's samples |
| MainDemo.DepthRange | main.js:78-89 | after the nested scan, `min_depth` is `Infinity` on an empty tensor and otherwise the minimum of its `width * height` samples; `max_depth` is their 0-seeded maximum |
| MainDemo.Level | main.js:98-104 | definition (`Math.round(norm * 255)` stored into the byte array, 0 when the range is 0); properties in `MainDemo.LevelIsRoundedDepth` and `MainDemo.LevelMonotone` |
| MainDemo.LevelIsRoundedDepth | main.js:98-103 | inside a non-empty range the stored level is exactly `Math.round(norm * 255)`: 0 at the minimum and 255 at the maximum |
| MainDemo.LevelMonotone | main.js:98-103 | a larger sample never gets a darker level |
| MainDemo.PaintRow | main.js:95-105 | one row of the fill makes every pixel of the row the opaque gray of its sample, keeps the rows before it and changes no byte after the row |
| MainDemo.Postprocess | main.js:62-112 | the image is a new buffer of `4 * w * h` bytes, and every pixel is the opaque gray of its sample, scaled by the scanned range |
| MainDemo.PinDepth | main.js:323-324 | the depth a pin reads is its pixel's red byte divided by 255, a value in [0, 1] |
| MainDemo.RaisedPins | main.js:311-339 | one pass gives every pin a scale in [1, 6] and the height `originalY * scale`, keeping `originalY` |
| MainDemo.PinPixelInCanvas | main.js:323 | the RGBA pixel a pin reads lies wholly inside the depth canvas |
| MainDemo.UpdatePin | main.js:311-338 | the callback for one pin is `Raise` by the depth under that pin's cell |
| MainDemo.MainScene.constructor | main.js:253-264 | 40×40 pins at half height with `originalY` recorded; no depth yet |
| MainDemo.MainScene.DepthReceived | main.js:157-163 | writing the depth image sets `depthDataReceived` |
| MainDemo.MainScene.UpdatePins | main.js:277-357 | without a canvas, before depth arrives or after a completed pass, nothing changes; otherwise every pin is raised by its own pixel and `depthProcessed` is set, so pins are updated exactly once |
| Quadratic.Lagrange | combined/main.js:85-93 | definition (`lagrangeInterpolate`, term by term); properties in the `Lagrange*` lemmas below |
| Quadratic.LagrangeAtNodes | combined/main.js:85-93 | the interpolant passes through its three samples at t = 0, 1 and 2 |
| Quadratic.LagrangeReproducesQuadratics | combined/main.js:85-93 | interpolating samples of any quadratic gives back that quadratic at every t |
| Quadratic.LagrangeConstant | combined/main.js:85-93 | a constant row interpolates to itself |
| Quadratic.LagrangeIsWeightedSum | combined/main.js:85-93 | the interpolant is the sum of the samples weighted by the Lagrange basis, and the basis sums to one |
| Quadratic.BasisSigns | combined/main.js:89-91 | for t in [1, 2] the first basis weight lies in [-1/8, 0] and the other two are non-negative |
| Quadratic.LagrangeOvershoot | combined/main.js:85-93 | for t in [1, 2], samples in [lo, hi] interpolate to within an eighth of the range beyond either end |
| Quadratic.ClampCoord | combined/main.js:101-102 | the clamped coordinate lies in [1, dim - 2] and is the input when the input already does |
| Quadratic.Stencil | combined/main.js:105-115 | the 3×3 block's corner `floor(c) - 1` keeps the block inside the axis, and the offset `c - x0` lies in [1, 2) |
| Quadratic.At | combined/main.js:117-119 | definition (`d(x, y) = data[y * w + x]`, on pixels of the map) |
| Quadratic.Row | combined/main.js:122-124 | definition (one row's interpolation along x); properties in `Quadratic.RowOvershoot` |
| Quadratic.SampleDepthQuadratic | combined/main.js:99-128 | definition (`sampleDepthQuadratic`); properties in `Quadratic.SampleAtNode`, `SampleClamps`, `SampleOnRowNode` and `SampleOvershoot` |
| Quadratic.SampleAtNode | combined/main.js:99-128 | at an integer interior point the reconstruction returns the stored sample |
| Quadratic.SampleClamps | combined/main.js:99-102 | a query outside the band reads the same as its clamped point |
| Quadratic.RowOvershoot | combined/main.js:122-124 | each row's interpolation of samples in [lo, hi] stays within an eighth of the range |
| Quadratic.SampleOnRowNode | combined/main.js:122-127 | when `v` clamps to an integer, the reconstruction is the x-interpolation of the block's middle row |
| Quadratic.SampleOvershoot | combined/main.js:99-128 | the reconstruction of a map whose samples lie in [lo, hi] stays within 9/32 of the range beyond either end |
| Overlay.Shade | combined/main.js:337-342 | definition (`255 * (1 - norm)` stored into the byte array, 0 when the range is 0); properties in the `Shade*` lemmas below |
| Overlay.ShadeIsRoundedInverseDepth | combined/main.js:335-341 | inside a non-empty range, `255 * (1 - norm)` lies in [0, 255] and the stored byte is within half a unit of it: 255 at the minimum and 0 at the maximum |
| Overlay.ShadeAntitone | o1-combined-one-shot/main.js:210-216 | a larger sample is never brighter |
| Overlay.ShadeFlat | combined/main.js:333-336 | a flat map (zero range) stores black, as the NaN stores do |
| Overlay.Render | combined/main.js:325-343 | the overlay is a new buffer of `4 * depthData.length` bytes, and every pixel is the opaque shade of its sample against the buffer's extrema |
| CombinedDemo.PinSample | combined/main.js:280-286 | definition (the quadratic sample at pin `i`'s position) |
| CombinedDemo.PinHeight | combined/main.js:287-290 | definition (`5 * norm` of that sample); properties in `CombinedDemo.PinHeightBounds`, `PinBelowFloor` and `CombinedScene.UpdatePins` |
| CombinedDemo.NormalizeOvershoot | combined/main.js:287 | a sample at most 9/32 of the range outside it normalises to at most 9/32 outside [0, 1] |
| CombinedDemo.PinHeightBounds | combined/main.js:280-290 | every pin group's height lies in [-45/32, 5 + 45/32] |
| CombinedDemo.PinBelowFloor | combined/main.js:280-290 | on a usable 4×3 map with samples in [0, 1] (rows 1, 0, 0, 0), pin group 30 is placed below height 0: the overshoot is reached |
| CombinedDemo.LastColumnClamped | combined/main.js:275-286 | the last column of pins is placed past the right edge, and its sample is the one at column `width - 2` |
| CombinedDemo.LiftPin | combined/main.js:280-290 | the loop body sets pin group `i` to `5 * norm` of the quadratic sample at its position |
| CombinedDemo.CombinedScene.constructor | combined/main.js:178-194 | 120×120 pin groups at height 0; no depth yet |
| CombinedDemo.CombinedScene.RunInference | combined/main.js:303-343 | the prediction becomes the depth the pins read, and the overlay shows it shaded against its own extrema |
| CombinedDemo.CombinedScene.UpdatePins | combined/main.js:262-292 | without depth or pins nothing changes; otherwise every pin group's height becomes `5 * norm` of its sample |
| OneShotDemo.PinDepth | o1-combined-one-shot/main.js:144-159 | a pin's normalised depth lies in [0, 1] |
| OneShotDemo.RaisedPins | o1-combined-one-shot/main.js:144-165 | one pass gives every pin a scale in [1, 6] and the height `originalY * scale`, keeping `originalY` |
| OneShotDemo.ExtremePins | o1-combined-one-shot/main.js:157-164 | the pin on the map's minimum keeps its original height, and the pin on its maximum is stretched six-fold |
| OneShotDemo.DeeperSampleTallerPin | o1-combined-one-shot/main.js:155-164 | a pin over a deeper sample never stands lower than one over a shallower sample |
| OneShotDemo.PixelOfPin | o1-combined-one-shot/main.js:146-155 | the index arithmetic gives the clamped cell-centre index, which lies inside the map |
| OneShotDemo.LiftPin | o1-combined-one-shot/main.js:144-164 | the loop body raises pin `i` by the normalised sample under its cell |
| OneShotDemo.OneShotScene.constructor | o1-combined-one-shot/main.js:109-118 | 80×80 pins at half height with `originalY` recorded; no depth yet |
| OneShotDemo.OneShotScene.RunInference | o1-combined-one-shot/main.js:177-217 | the prediction becomes the depth the pins read, and the overlay shows it shaded against its own extrema |
| OneShotDemo.OneShotScene.UpdatePins | o1-combined-one-shot/main.js:127-166 | without depth or pins nothing changes; otherwise every pin is raised by its own normalised sample |
| OneShotDemo.UpdateIdempotent | o1-combined-one-shot/main.js:161-164 | a second update over the same map changes no pin |

## Left out

- Webcam capture, the ONNX / transformers.js model and its processor, canvas drawing calls, Three.js scene construction and rendering, `requestAnimationFrame` loops, the `isProcessing` guard, FPS display, timing and logging are not modelled. They are I/O or foreign calls. The network's output enters the model as a parameter (`predicted`, `tensorData`).
- In main.js, `updatePins` tracks `minDepthSeen`/`maxDepthSeen` and draws debug circles. Both only feed logging and drawing, so they are left out.
- All arithmetic is on exact reals. IEEE-754 doubles and the `Float32Array` rounding of tensor values are not modelled.
- Preprocess.Preprocess: it requires `data.length == 4 * width * height`. Its only caller passes the frame canvas's own image data, which has that size. The unused `floatArr1` buffer is not modelled.
- MainDemo.Postprocess: it requires the tensor to hold at least `width * height` samples. Only channel 0 is read, and reads past the end of the JavaScript buffer are not modelled.
- CombinedDemo.CombinedScene.UpdatePins: it requires the map to be at least 3×3, to hold one sample per pixel, and to have a non-zero range:
  - On a flat map the source divides by zero and sets NaN heights. NaN is not a real, so that case is excluded.
  - Maps smaller than 3×3 make the source read outside the buffer.
- OneShotDemo.OneShotScene.UpdatePins: it requires a non-empty map with one sample per pixel and a non-zero range, for the same NaN reason.
- In all three variants the pins are pushed with the scene's x coordinate in the outer loop (main.js:253-264, combined/main.js:178-197, o1-combined-one-shot/main.js:109-119), but pin `i` reads image column `i % gridSize`. The pin field therefore shows the depth image transposed. The model follows the update code's index mapping and leaves out the scene placement.
- Pins are values, not shared scene-graph objects. Only `position.y`, `scale.y` and `userData.originalY` are modelled. The x/z placement, materials and the pins' membership in the scene are not. In the combined variant only `position.y` is kept.
- The transformers.js post-processing that produces `predicted_depth` is not part of this model.
