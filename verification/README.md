# Skeleton-to-stroke pipeline and MNIST arg-max, modelled in Dafny

This project models the logic of two Unity components that run a neural network
on the camera image.

`Inference_informative` turns the network's confidence buffer into 3D strokes:

1. **Binarisation.** `Start` derives a threshold `|1 - clamp(skeleton_threshold, 0, 1)|`.
   `SetBoolsFromFloats` marks pixel `i` foreground when `floats[i]` is below it.
2. **Tracing.** The thinning and tracing library turns the mask into pixel chains.
   It is an abstract function (`Scene.trace`), which also covers the fixed
   `trace_c` setting passed to `traceSkeleton`.
3. **Projection.** Each pixel is scaled to screen coordinates and raycast into the
   scene (`Scene.raycast`, which gives an optional hit). `FindWorldSpaceCoords`
   turns a miss into the zero vector (`Scene.zero`). Every point that Unity's
   `==` considers equal to the zero vector (`Scene.isZero`) is then dropped.
   That comparison is a tolerance test (squared distance below 9.99999944e-11),
   so a genuine hit at, or within about 1e-5 of, the world origin is dropped as
   well (`NearOriginHitDropped`).
   Chains left with fewer than `minPoints` points are discarded.
4. **Segmentation.** `SeparatePointsByDistance` cuts each kept chain wherever two
   consecutive points are more than `distanceThreshold` apart (`Scene.dist`).
   The pieces of all chains are concatenated in chain order and handed to the
   stroke consumer.
5. **Re-entrancy guard.** `Update` starts a run only when the key is pressed and
   `ready` is set. The run clears `ready` on entry and sets it again at its end.

Points have an arbitrary type `P` with equality. Floats are reals.

Two exceptions can end a run, and the model makes both explicit (`Fault`):

- `ShortBuffer`: the buffer holds fewer than `width * height` values. The size check
  in `SetTexFromFloats` only guards the texture preview. `SetBoolsFromFloats` then
  reads past the end of the array.
- `EmptyStroke`: a kept chain is empty. This can only happen when `minPoints <= 0`.
  `SeparatePointsByDistance` then reads `pointList[Count - 1]` of an empty list.

Either exception ends the coroutine before `ready = true`. So `ready` stays false,
and every later key press is ignored. Without an exception, the coroutine runs to
completion within the frame that started it: its only `yield` comes after
`ready = true`. So a cleared `ready` is observable only after such a fault.

A higher `skeleton_threshold` lowers the threshold, so it never adds foreground
pixels (`SensitivityMonotone`).

`Inference_MNIST.Prediction.SetPrediction` stores the network's scores. It then
stores `Array.IndexOf(predicted, predicted.Max())`, the first index of the maximum.

Modules:

- `Wrappers`: `Option`, `Result` and `Outcome`.
- `Binarization`: the threshold, the mask and foreground counts.
- `Projection`: pixels, `FindWorldSpaceCoords`, projected chains and the `minPoints` filter.
- `Segmentation`: `Flatten`, the reference segmentation `Separated` and its
  characterisation `SplitsAtJumps`, and the per-stroke concatenation `SeparatedAll`.
- `InferenceInformative`: the external collaborators (`Scene`), the run as a
  function (`Run`), and the class `Inference` with the component's loops as methods.
- `InferenceMnist`: `Max`, `IndexOf`, `ArgMax` and the class `Prediction`.

## Model

| member | source | states |
|---|---|---|
| `Binarization.Threshold` | Scripts/Inference_informative.cs:33 | the derived threshold lies in [0, 1] and equals `1 - clamp(s, 0, 1)`; the absolute value never changes it |
| `Binarization.ThresholdAntitone` | Scripts/Inference_informative.cs:33 | a higher sensitivity never gives a higher threshold |
| `Binarization.Binarized` | Scripts/Inference_informative.cs:141-147 | the mask has one entry per pixel of the frame, entry i foreground exactly when `floats[i]` is below the threshold |
| `Binarization.BinarizedMonotone` | Scripts/Inference_informative.cs:144 | with a larger threshold every foreground pixel stays foreground |
| `Binarization.ForegroundMonotone` | Scripts/Inference_informative.cs:144 | a mask pointwise below another has no more foreground pixels |
| `Binarization.SensitivityMonotone` | Scripts/Inference_informative.cs:141-147 | raising `skeleton_threshold` never increases the number of foreground pixels |
| `Binarization.BinarizedUniform` | Scripts/Inference_informative.cs:141-147 | a buffer of one value `c` is all foreground if `c` is below the threshold, else all background |
| `Binarization.BinarizedExample` | Scripts/Inference_informative.cs:141-147 | a 4 x 4 buffer at sensitivity 0.5 gives foreground exactly at indices 4, 5, 8 and 9 |
| `InferenceInformative.Inference.constructor` | Scripts/Inference_informative.cs:15-27 | the settings are stored, `ready` starts true and the derived threshold at its default 0 |
| `InferenceInformative.Inference.Start` | Scripts/Inference_informative.cs:29-34 | the derived threshold is `Threshold(skeleton_threshold)`, a value in [0, 1] |
| `InferenceInformative.Inference.SetBoolsFromFloats` | Scripts/Inference_informative.cs:141-147 | the mask is a new array of `width * height` entries, entry i true exactly when `floats[i]` is below the threshold; callers must supply at least `width * height` values |
| `Projection.FindWorldSpaceCoords` | Scripts/Inference_informative.cs:162-171 | a hit gives its point; a miss gives the zero vector |
| `Projection.Projected` | Scripts/Inference_informative.cs:79-87 | a projected chain is no longer than the pixel chain and holds no point that counts as the zero vector |
| `Projection.ProjectedPixel` | Scripts/Inference_informative.cs:162-171 | one pixel gives its hit point; a miss, and also a hit that counts as the zero vector, gives nothing |
| `Projection.NearOriginHitDropped` | Scripts/Inference_informative.cs:86 | with Unity's tolerance comparison, a hit at (3e-6, 0, 0) is dropped like a miss |
| `Projection.ProjectedAppend` | Scripts/Inference_informative.cs:79-87 | projection keeps pixel order: projecting a concatenation concatenates the projections |
| `Projection.ProjectedMembers` | Scripts/Inference_informative.cs:79-87 | a point is in the projection if and only if it does not count as the zero vector and some pixel of the chain hit it |
| `Projection.ProjectedAllHit` | Scripts/Inference_informative.cs:79-87 | when no pixel's hit counts as the zero vector, point j is the hit of pixel j: nothing dropped, replaced or moved |
| `InferenceInformative.Inference.ProjectTrace` | Scripts/Inference_informative.cs:76-87 | the loop's points are exactly `Projected` of the chain |
| `Projection.KeptStrokes` | Scripts/Inference_informative.cs:89-91 | there are no more kept strokes than chains, and every kept stroke has at least `minPoints` points |
| `Projection.KeptChain` | Scripts/Inference_informative.cs:89-91 | a chain is kept, as its projection, if and only if the projection has at least `minPoints` points |
| `Projection.KeptStrokesAppend` | Scripts/Inference_informative.cs:75-92 | kept strokes keep the order of their chains |
| `Projection.KeptStrokesOrigin` | Scripts/Inference_informative.cs:75-92 | every kept stroke is the projection of one of the input chains |
| `InferenceInformative.Inference.ProjectTraces` | Scripts/Inference_informative.cs:75-92 | the loop's list of strokes is exactly `KeptStrokes` of the traced chains |
| `Segmentation.Separated` | Scripts/Inference_informative.cs:173-192 | a non-empty point list gives at least one and at most as many segments as points |
| `Segmentation.SeparatedSingle` | Scripts/Inference_informative.cs:188-189 | a one-point list gives exactly one one-point segment |
| `Segmentation.SeparatedSplitsAtJumps` | Scripts/Inference_informative.cs:177-189 | the segments are non-empty and concatenate back to the input; inside a segment neighbours are within the threshold; across every cut they are farther apart |
| `Segmentation.SplitsAtJumpsUnique` | Scripts/Inference_informative.cs:177-189 | any segmentation with those properties is the one `Separated` gives |
| `Segmentation.SeparatedCount` | Scripts/Inference_informative.cs:177-189 | the number of segments is one plus the number of indices i with `dist(p[i], p[i+1]) > threshold` |
| `Segmentation.SeparatedWithoutJumps` | Scripts/Inference_informative.cs:177-189 | a list whose neighbours are all within the threshold stays one segment with every point in order |
| `Segmentation.SeparatedExample` | Scripts/Inference_informative.cs:177-189 | `[(0,0), (0,0.5), (0,2), (0,2.5)]` at threshold 1 splits into `[(0,0), (0,0.5)]` and `[(0,2), (0,2.5)]` |
| `InferenceInformative.Inference.SeparatePointsByDistance` | Scripts/Inference_informative.cs:173-192 | for a non-empty list the loop returns exactly `Separated`; an empty list is excluded because it raises |
| `Segmentation.SeparatedAll` | Scripts/Inference_informative.cs:94-100 | the segments of all strokes, stroke after stroke; every stroke gives at least one segment |
| `Segmentation.SeparatedAllAppend` | Scripts/Inference_informative.cs:94-100 | the pieces of the strokes are concatenated in stroke order |
| `Segmentation.SeparatedAllSplits` | Scripts/Inference_informative.cs:94-100 | cutting all strokes loses, duplicates and reorders no point, and every piece is non-empty and smooth |
| `InferenceInformative.Inference.SeparateStrokes` | Scripts/Inference_informative.cs:94-100 | fails with `EmptyStroke` if and only if some stroke is empty; otherwise returns `SeparatedAll` of the strokes |
| `InferenceInformative.Run` | Scripts/Inference_informative.cs:42-104 | the data flow of a run: binarise, trace, project, keep, segment; it fails with `ShortBuffer` exactly when the buffer has fewer than `width * height` values, and with `EmptyStroke` only when `minPoints <= 0` |
| `InferenceInformative.Inference.DoInference` | Scripts/Inference_informative.cs:42-108 | the run's outcome is `Run` of the buffer and settings; `ready` ends true exactly when the run completes |
| `InferenceInformative.RunEmits` | Scripts/Inference_informative.cs:42-108 | with a large enough buffer and `minPoints >= 1` a run completes and emits every kept point once, in order, as non-empty smooth segments with no point that counts as the zero vector |
| `InferenceInformative.Inference.Update` | Scripts/Inference_informative.cs:36-40 | a run starts only on a key press with `ready` set; otherwise nothing is emitted and `ready` is unchanged |
| `InferenceMnist.Max` | Examples/MNIST/Scripts/Inference_MNIST.cs:23 | the maximum is an element and no element exceeds it |
| `InferenceMnist.IndexOf` | Examples/MNIST/Scripts/Inference_MNIST.cs:23 | -1 if and only if the value is absent; otherwise the first index holding it |
| `InferenceMnist.ArgMax` | Examples/MNIST/Scripts/Inference_MNIST.cs:23 | a valid index whose element is at least every element, with every earlier element strictly smaller |
| `InferenceMnist.ArgMaxUnique` | Examples/MNIST/Scripts/Inference_MNIST.cs:23 | those three properties determine the index |
| `InferenceMnist.Prediction.constructor` | Examples/MNIST/Scripts/Inference_MNIST.cs:33 | a fresh prediction has digit 0 and no scores |
| `InferenceMnist.Prediction.SetPrediction` | Examples/MNIST/Scripts/Inference_MNIST.cs:21-25 | the scores are stored unchanged; non-empty scores give `ArgMax` of them; empty scores raise and leave the digit unchanged |

## Left out

- Unity's lifecycle and coroutine machinery (`Start`/`Update`/`OnDestroy` callbacks, `StartCoroutine`, `yield`) is not modelled. Only the `ready` flag and the order of the steps remain. A run completes within the `Update` call that starts it.
- Barracuda model loading, `Tensor` construction, `worker.Execute` and `Dispose` are foreign calls. The confidence buffer and the scores are inputs.
- `Screenshot`, `SetTexFromFloats`, render textures, `Graphics.Blit` and the material are GPU and rendering I/O. The frame's width and height are inputs. The size check at Scripts/Inference_informative.cs:121-124 only affects the preview, so it has no counterpart.
- `OnDestroy` only releases resources and is not modelled.
- `TraceSkeleton.thinningZS` and `traceSkeleton` are an external library, modelled as the abstract `Scene.trace`. The fixed `trace_c` setting (line 66) is part of that function.
- `Camera.ScreenPointToRay` and `Physics.Raycast`, together with the float scaling of pixel coordinates to screen coordinates (lines 80-83), are the abstract `Scene.raycast`.
- `Vector3.Distance` is the abstract `Scene.dist`.
- `latk.inputInstantiateStroke` is the stroke consumer. The model returns the strokes it would receive, in order (`emitted`).
- `Debug.Log` output is not modelled.
- Examples/MNIST/Scripts/DrawOnTexture.cs (mouse painting on a texture) is not part of this model.
- IEEE float behaviour (NaN in comparisons, `Max` and `IndexOf`, rounding, infinities) is not modelled. All floats are reals.
- `InferenceMnist.Prediction`: the C# `struct Prediction` is modelled as a class. The component keeps it in a field and calls `SetPrediction` on that field, so it is changed in place and no copy semantics are lost.
- `InferenceMnist.Prediction.constructor`: a default `Prediction` struct has a null `predicted` array; the model uses the empty sequence.
- `InferenceInformative.Inference.Update`: the buffer and frame are parameters even when no run starts. In the component they are only produced by a run.
