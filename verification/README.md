# Box-average blur of the photo editor, in Dafny

The photo editor (`PJ.py`) blurs an image with a box filter. Every output pixel is the mean, channel by channel, of the input pixels in a square window of half-width `radius` around it. The window is clamped to the edges of the region being blurred. The mean is stored into a buffer made by `zeros_like`. For the 8-bit image modes this model covers, the buffer has the image's 8-bit type and the float mean is truncated on store.

The blur has two modes:

- **Whole image.** The result goes into a fresh buffer.
- **Selection.** A rectangle `(left, top, right, bottom)` is sliced out of the pixel array and blurred as a region of its own. Its windows clamp to the selection's edges, not the image's. The result is assigned back to the same slice.

The editor's brightness step is also modelled: add a signed integer to every sample, then clip to [0, 255].

Modules:

- `Grids`: one channel as `seq<seq<int>>`, plus row and block sums and sub-grids.
- `BoxFilter`: the clamped window, the truncated mean, the blur of a region, and its properties.
- `Traversal`: the filter's pixel-by-pixel fill of a separate buffer, and the nested loops as methods that write by index into a `zeros_like` buffer, proved equal to the blur.
- `Region`: NumPy slice resolution, cutting out and assigning back a rectangle, the window clamped to a selection's own edges, and the selection mode of one channel.
- `Editor`: an image with explicit height, width and one plane per channel, and the editor's blur with an optional selection.
- `Brightness`: add and clip, the same step as the code writes it, and the difference between the two.

Samples are unbounded integers. A mean of samples in [0, 255] lies in [0, 255], proved by `BoxFilter.BlurKeepsRange`, so storing it in 8 bits never wraps. Integer division equals truncating the float mean because sums and counts are non-negative.

## Model

| member | source | states |
|---|---|---|
| BoxFilter.ClampedWindow | PJ.py:32-35 | For radius >= 0 and a pixel of an h x w region, the clamped window lies inside the region, contains the pixel, and is non-empty |
| BoxFilter.ClampedWindowMembers | PJ.py:47-50 | The clamped window holds exactly the pixels of the region within Chebyshev distance `radius` of the centre |
| BoxFilter.BoxMean | PJ.py:36-38 | The stored sample is the unique integer m with m * n <= window sum < (m + 1) * n, n the window's pixel count: the float mean truncated on store |
| BoxFilter.Blur | PJ.py:43 | The output of a whole-region blur has exactly the input's height, row lengths and width |
| BoxFilter.MeanWithinWindow | PJ.py:36-38 | Each output sample lies between any lower and upper bound of the samples in its window, so between the window's minimum and maximum |
| BoxFilter.BlurKeepsRange | PJ.py:51-53 | Blurring keeps every sample within the input's range; an 8-bit channel stays within [0, 255] |
| BoxFilter.BlurRadiusZero | PJ.py:47-53 | With radius 0 the window is the pixel itself and the blur is the identity |
| BoxFilter.UniformIsFixed | PJ.py:51-53 | A channel of one constant value is unchanged by a blur of any radius |
| BoxFilter.FullCoverageIsGlobalMean | PJ.py:47-52 | When the radius reaches across the region, every output sample is the truncated mean of the whole region |
| BoxFilter.FullCoverageIdempotent | PJ.py:47-53 | Blurring such a fully averaged result again, with any radius, changes nothing |
| Traversal.ZerosLike | PJ.py:43 | The output buffer has the input's shape and every sample 0 |
| Traversal.Paint | PJ.py:43-53 | Writing box means into a buffer by index, in any order, keeps the buffer's shape; PaintCell states what each sample then holds |
| Traversal.PaintCell | PJ.py:43-53 | After writing box means of the unmodified input into a separate buffer, a visited pixel holds its mean and an unvisited one keeps its initial value, whatever the order or repetitions |
| Traversal.PaintAnyOrder | PJ.py:43-53 | Any visiting order that covers every pixel, from any starting buffer, yields the blur: the result does not depend on traversal order |
| Traversal.RowMajor | PJ.py:45-46 | The nested `range` loops make h * w visits |
| Traversal.RowMajorAt | PJ.py:45-46 | Visit number y * w + x is pixel (y, x): row by row, left to right within a row |
| Traversal.RowMajorCells | PJ.py:45-46 | The nested `range` loops visit exactly the pixels of the region |
| Traversal.SourceOrderIsBlur | PJ.py:43-54 | Row-major filling of a zeros_like buffer yields the blur |
| Traversal.WindowSumLoop | PJ.py:51-52 | Summing the window row by row with nested loops gives the window's sum |
| Traversal.BoxMeanLoop | PJ.py:47-53 | Clamping with max/min, summing and truncating gives the box mean at the pixel |
| Traversal.BlurRowLoop | PJ.py:46-53 | The inner loop writes row y of the blur into the buffer by index and leaves every other row as it was |
| Traversal.BlurLoop | PJ.py:42-54 | The whole-image loops, writing into a `zeros_like` buffer, produce exactly the blur |
| Grids.SubGrid | PJ.py:26 | An in-range slice [top:bottom, left:right] has bottom - top rows of right - left samples, and sample (i, j) is the parent's (top + i, left + j) |
| Region.SliceBound | PJ.py:26 | A slice bound is normalised into [0, len]: an in-range bound is kept, a negative bound i becomes max(0, i + len), a bound above len becomes len |
| Region.ResolveSlice | PJ.py:26 | The slice [start:stop] selects a range inside [0, len] that starts at the normalised start and has length max(0, stop' - start'), stop' and start' the normalised bounds; in-range bounds are kept |
| Region.ResolveSliceMembers | PJ.py:26 | The resolved range holds exactly the valid indices k with start' <= k < stop' |
| Region.Cut | PJ.py:26-27 | The slice is a rectangular grid with as many rows and columns as the resolved ranges |
| Region.Paste | PJ.py:40 | Assigning a patch to a slice keeps the array's shape |
| Region.PasteInside | PJ.py:40 | Inside the slice the assigned patch shows through, re-indexed from the slice's origin |
| Region.PasteOutside | PJ.py:40 | Outside the slice every sample keeps its value |
| Region.PasteOwnCut | PJ.py:26-40 | Assigning a slice back where it was taken from changes nothing |
| Region.BlurRegion | PJ.py:24-40 | Blurring a selection keeps the channel's shape |
| Region.RegionOutsideUnchanged | PJ.py:40 | Blurring a selection changes no sample outside the selection |
| Region.RegionInsideIsSliceBlur | PJ.py:26-40 | Inside the selection the result is the whole-region blur of the slice, shifted to the selection's origin |
| Region.RegionWindow | PJ.py:32-35 | For a pixel of a rectangle of a larger grid, the window clamped to the rectangle stays inside the rectangle, contains the pixel and is non-empty |
| Region.SubGridWindowSum | PJ.py:26-36 | The slice's own clamped window of a pixel sums the same samples as the parent's window clamped to the selection, and has as many pixels |
| Region.BoxMeanOfSubGrid | PJ.py:26-38 | The box mean at a pixel of a sliced-out sub-grid equals the parent's truncated mean over the window clamped to the sub-grid's edges |
| Region.CutBlurAt | PJ.py:26-38 | A sample of the blurred slice is the parent's truncated mean over the window clamped to the selection |
| Region.RegionClampsToOwnEdges | PJ.py:30-38 | Inside the selection each sample is the truncated mean over the window clamped to the selection's own edges, so pixels outside it never contribute |
| Region.WholeRegionIsBlur | PJ.py:24-54 | Selecting every row and column gives the same result as blurring the whole channel |
| Region.RegionRadiusZero | PJ.py:30-40 | With radius 0 blurring a selection changes nothing |
| Region.PasteKeepsRange | PJ.py:40 | Assigning a patch whose samples lie in [lo, hi] to a slice of a grid whose samples do keeps every sample in [lo, hi] |
| Region.RegionKeepsRange | PJ.py:36-40 | Blurring a selection keeps every sample within the channel's range |
| Region.BlurRegionLoop | PJ.py:26-40 | Slicing, filling a fresh buffer with the loops and assigning back computes the selection blur |
| Editor.RowSpan | PJ.py:25-26 | The rows a selection picks lie inside the image |
| Editor.ColSpan | PJ.py:25-26 | The columns a selection picks lie inside the image |
| Editor.BlurPlane | PJ.py:24-54 | One channel blurred in either mode keeps the image's dimensions |
| Editor.Blur | PJ.py:22-57 | The blurred image has the input's height, width and channel count, each plane of the image's dimensions |
| Editor.BlurLoop | PJ.py:22-54 | Running the loops channel by channel, in either mode, computes the editor's blur |
| Editor.BlurPlaneLoop | PJ.py:24-54 | The loops over one channel, over the whole plane or over the selection's slice, compute that channel's blur |
| Editor.BlurKeepsValid | PJ.py:36-53 | A blurred 8-bit image is again a valid 8-bit image |
| Editor.ChannelsIndependent | PJ.py:52 | An output channel depends only on the same input channel |
| Editor.WholeImageSample | PJ.py:47-53 | Without a selection each sample is the truncated mean of its channel over the window clamped to the image's edges |
| Editor.SelectionOutsideUnchanged | PJ.py:40 | With a selection, samples outside the resolved rectangle keep their values in every channel |
| Editor.SelectionInsideClampsToSelection | PJ.py:26-40 | With a selection, each sample inside is the truncated mean over a window that stays inside the selection |
| Editor.WholeSelectionIsNoSelection | PJ.py:24-54 | Selecting (0, 0, width, height) gives the same image as no selection |
| Editor.WholeSelectionPlane | PJ.py:24-54 | The same for a single channel |
| Editor.RadiusZeroIsIdentity | PJ.py:22-57 | With radius 0 the image is unchanged, with or without a selection |
| Editor.PlaneRadiusZero | PJ.py:24-54 | With radius 0 one channel is unchanged, with or without a selection |
| Editor.WideRadiusFlattens | PJ.py:47-53 | Once the radius reaches across the image, every sample of a channel becomes the channel's truncated global mean |
| Editor.SelectionEdgeExample | PJ.py:30-53 | One white pixel in a black 4 x 4 image, radius 1: the whole-image blur gives 28 there (255 / 9), a 2 x 2 selection around it gives 63 (255 / 4) |
| Brightness.Clip | PJ.py:12 | The clip lies in [0, 255] and keeps in-range values |
| Brightness.ClipIsNearest | PJ.py:12 | No 8-bit value is nearer to the input than its clip |
| Brightness.ClipMonotone | PJ.py:12 | Clipping preserves order |
| Brightness.AdjustSample | PJ.py:11-12 | The adjusted sample is p + value when in range, 0 below and 255 above |
| Brightness.AdjustSampleIsNearest | PJ.py:11-12 | The adjusted sample is the 8-bit value nearest to p + value |
| Brightness.AdjustSampleComposes | PJ.py:11-12 | Two adjustments in the same direction equal one adjustment by their sum |
| Brightness.AdjustSampleUndo | PJ.py:11-12 | An adjustment that did not clip is undone by the opposite adjustment |
| Brightness.AdjustPlane | PJ.py:11-12 | An adjusted channel keeps its shape and lies within [0, 255] |
| Brightness.AdjustBrightness | PJ.py:11-13 | The adjusted image keeps its dimensions and channel count and is a valid 8-bit image |
| Brightness.AdjustBrightnessSample | PJ.py:11-13 | Every sample of the adjusted image is the 8-bit value nearest to the original sample plus the value |
| Brightness.AdjustZeroIsIdentity | PJ.py:11-13 | Adding 0 leaves a valid image unchanged |
| Brightness.AdjustBrightnessComposes | PJ.py:11-13 | Two image adjustments in the same direction equal one by their sum |
| Brightness.AdjustMovesTowardValue | PJ.py:11-13 | Brightening never darkens a sample and darkening never brightens one |
| Brightness.AddAsWritten | PJ.py:11 | For a value in [0, 255] the 8-bit sum lies in [0, 255] and is congruent to p + value modulo 256, so an 8-bit p + value above 255 loses 256; any other value is added exactly |
| Brightness.AdjustSampleAsWritten | PJ.py:11-12 | The add-then-clip step as written still yields an 8-bit value |
| Brightness.AsWrittenDiffersExactly | PJ.py:11-12 | The written step differs from the clip exactly when 0 <= value <= 255 and p + value > 255 |
| Brightness.AsWrittenCounterexample | PJ.py:11-12 | Brightening 250 by 10 gives 4 as written, where the clip gives 255 |

## Left out

- Image I/O and display (`Image.open`, `show`, `save`, `Image.fromarray`) are foreign library calls. The model starts from the pixel array and ends with it.
- PIL's mode conversion in the brightness step (PJ.py:8-10, 15) is not modelled, because PIL's conversion is not visible. Images are taken as already normalised, one plane per channel.
- `crop` is a one-line wrapper over PIL's `Image.crop`, whose padding behaviour is not visible.
- The interactive menu, its prompts and its input validation in `main` are console I/O.
- The diagnostic `print` calls in `blur` do not affect the result.
- A negative radius is not modelled: every blur member requires `radius >= 0`. In the code a negative radius gives an empty window at most pixels, whose NaN mean is stored as an unspecified byte. For radius <= -2 the negative slice stop near the top-left corner wraps from the end, so such pixels average an unrelated block of the image.
- The pixel array `[row][column][channel]` is modelled as one `[row][column]` grid per channel. `np.mean(..., axis=(0, 1))` averages each channel separately, so this changes nothing.
- Grayscale images have a 2-D array; they are modelled as an image with one plane.
- Only 8-bit image modes are modelled. A mode "1" (1-bit) image gives a bool array, so the `zeros_like` buffer is bool and the store writes `mean != 0`: any non-zero sample in the window makes the output white. The model's truncating store does not cover that mode.
- The float mean and its truncation on store are modelled as integer division. This is exact for non-negative sums. Floating-point rounding of the mean of very large windows is not modelled.
- Brightness.AdjustSampleAsWritten: the NumPy promotion of a Python int outside [0, 255] depends on the NumPy version and is modelled as exact addition. NumPy 2 raises OverflowError for such values. NumPy 1.x widens to a larger type, which can itself wrap for values above 65535 - p.
- The rest of the model uses the intended add-and-clip (`Brightness.AdjustSample`), not the wrapping addition.

## Findings

| source | as written | input that shows it | evidently intended | confidence | as-written member | corrected member |
|---|---|---|---|---|---|---|
| PJ.py:11-12 | `image_array + value` adds a Python int to a `uint8` array. A value in [0, 255] keeps the `uint8` type, so the sum wraps modulo 256 before `np.clip` runs | sample 250, value 10: 260 wraps to 4, and the clip leaves 4 (Brightness.AsWrittenCounterexample; Brightness.AsWrittenDiffersExactly gives every such input) | the sample saturates at 255, as the clip to [0, 255] intends | not executed; follows from NumPy's type-promotion rules for Python scalars | Brightness.AdjustSampleAsWritten | Brightness.AdjustSample |
