# ComputerVision integer grid pipeline, in Dafny

A model of the 8-bit grid pipeline underneath the two detectors of the Go
repository ComputerVision. It covers:

- replicate padding;
- kernel convolution with clamping and truncation to `uint8`;
- the per-pixel helpers (pixel order, clamp, weighted addition, wrapped
  subtraction, the 27-offset cube);
- the Sobel kernels and the gradient/orientation quantiser;
- the back end of both Canny packages (non-maximum suppression and the
  threshold);
- the candidate stage of SIFT: scale space, differences of Gaussians (DoG),
  the 3x3x3 extremum scan, normalised gradient magnitudes and the threshold
  filter.

Images are the value `Images.Gray(w, h, px)`. It is indexed `px[x][y]` with
origin (0, 0). Its `At` returns 0 outside the bounds, as Go's `GrayAt` does.

Where the Go code fills a fresh image pixel by pixel, the Dafny method
writes into a fresh `array2<byte>` in the same loops, then freezes it. The
method ensures the result equals a specification function. The properties
the source promises are lemmas about those functions.

Go's `(value, error)` returns become `Result<T>`, and each error message
becomes one `Error` constructor.

The modules follow the Go packages:

| file | module | Go source |
|---|---|---|
| images.dfy | Images | `image.Gray` and the error values |
| utils.dfy | Utils | utils/utils.go |
| padding.dfy | Padding | padding/padding.go |
| convolution.dfy | Convolution | convolution/convolution.go |
| blurring.dfy | Blurring | blurring/gaussian.go (its surface only) |
| gradient.dfy | Gradient | gradient/gradient.go |
| edgedetection_sobel.dfy | EdgeDetection_Sobel | edgeDetection/sobel.go |
| edgedetection_canny.dfy | EdgeDetection_Canny | edgeDetection/canny.go |
| edge_detection_sobel.dfy | Edge_Detection_Sobel | edge_detection/sobel.go |
| edge_detection_canny.dfy | Edge_Detection_Canny | edge_detection/canny.go |
| sift.dfy | Sift | sift/sift_feature.go: the scale space, the DoG and the candidate scan |
| sift_gradient.dfy | SiftGradient | sift/sift_feature.go: gradianSpec, createGradientSpec, filterKeyPoints, SiftFeatures |

Float-only operations enter as function parameters. Each one is named where
it is first used:

- `gaussian` is the Gaussian weight of a kernel cell;
- `hypot` is `math.Hypot` on two samples;
- `angle` is `180 * math.Atan2(v, h) / math.Pi`;
- `halve` is `utils.HalveImage`;
- `k` is `math.Pow(2, 1/scale)`.

Two quirks of the padding code are reproduced, not corrected:

- The top margin copies source row `PaddingTop`, not row 0
  (`Padding.TopMarginRow`).
- The interior copy loop is bounded by `PaddingRight` and `PaddingBottom`.
  For an even kernel width, the last source column is therefore never
  copied and reads 0 (`Padding.EvenWidthDropsLastColumn`).

A consequence of the first: the constant-image facts hold only where row
`PaddingTop` exists. A constant image of height 1 has a non-zero vertical
Sobel response, 4c saturated (`Gradient.FlatStripVerticalResponse`).

## Model

| member | source | states |
|---|---|---|
| Utils.ForEachPixel | utils/utils.go:10-16 | the visits are exactly `PixelOrder(size)`: x outer, y inner |
| Utils.PixelOrderLength | utils/utils.go:10-16 | there are exactly w*h visits |
| Utils.PixelOrderVisitsEveryPixel | utils/utils.go:10-16 | every in-bounds (x, y) is visited, at position x*h + y |
| Utils.PixelOrderVisitsOnce | utils/utils.go:10-16 | visit i is in bounds and sits at position x*h + y, so no pixel is visited twice |
| Utils.InPixelOrder | utils/utils.go:10-16 | a point is visited iff 0 <= x < w and 0 <= y < h |
| Utils.PixelOrderAscending | utils/utils.go:10-16 | an earlier visit has a smaller x, or the same x and a smaller y |
| Utils.Clamp | utils/utils.go:17-24 | below min gives min, above max gives max, otherwise the value; the result lies in [min, max] when min <= max |
| Utils.Truncate | utils/utils.go:37 | `uint8` of a value in [0, 255] is its floor |
| Utils.SaturateCases | utils/utils.go:36-37 | clamp-then-truncate is 0 below 0, 255 from 255 up, and the floor in between |
| Utils.AddGrayWeighted | utils/utils.go:26-40 | fails exactly on a size mismatch; otherwise an image of the first image's bounds, pixel by pixel `uint8(Clamp(w1*p1 + w2*p2, 0, 255))` |
| Utils.HalfWeightsFloorMean | utils/utils.go:36-37 | with weights 0.5 and 0.5 a pixel is (a + b) div 2 |
| Utils.SubtractGrayColorIsMod256 | utils/utils.go:64-70 | the subtraction through the RGBA levels is (a - b) mod 256: a - b when a >= b, a - b + 256 otherwise |
| Utils.SubtractUnderflowWraps | utils/utils.go:64-70 | 0 - 1 wraps to 255 |
| Utils.Subtracted | utils/utils.go:51-62 | the result is valid; it has the bounds of the inputs when they match, and is empty when they differ |
| Utils.SubtractGrayImages | utils/utils.go:51-62 | returns `Subtracted`: empty on differing bounds, otherwise the same bounds |
| Utils.SubtractedIsMod256 | utils/utils.go:57-69 | each pixel of the difference is (first - second) mod 256 |
| Utils.SubtractSelfIsZero | utils/utils.go:57-69 | an image minus itself is all zeros |
| Utils.SubtractZeroIsIdentity | utils/utils.go:57-69 | an image minus an all-zero image of its size is itself |
| Utils.Create3DDirection | utils/utils.go:72-83 | three sequences of length 27; entry d is offset (d/9 - 1, (d/3)%3 - 1, d%3 - 1), so it is x outermost, then y, then z |
| Utils.DirOfIndex | utils/utils.go:72-83 | every offset in {-1,0,1}^3 appears, at index 9(a+1) + 3(b+1) + (c+1) |
| Utils.IndexOfDir | utils/utils.go:72-83 | every entry lies in the cube and its index recovers it |
| Utils.DirectionsEnumerateCube | utils/utils.go:72-83 | distinct entries are distinct offsets, and entry 13 is (0, 0, 0) |
| Padding.CalculatePaddings | padding/padding.go:47-62 | fails iff a kernel dimension is negative, the anchor is negative or the anchor exceeds the kernel; a negative size gives "Negative size"; on success left = anchor.x, top = anchor.y, left + right = kW - 1 and top + bottom = kH - 1 |
| Padding.CentreAnchorMargins | padding/padding.go:16-21 | with anchor (kW/2, kH/2) it fails only on a negative size; odd sizes give equal opposite margins, and even sizes give right = left - 1 and bottom = top - 1 |
| Padding.GetRectangleFromPaddings | padding/padding.go:64-68 | the rectangle spans left + right + W by top + bottom + H from (0, 0) whenever those sums are non-negative |
| Padding.Padding | padding/padding.go:16-45 | returns `Padded`: the interior copy, then the top, bottom, left and right replicas, in that order |
| Padding.TopPaddingReplicate | padding/padding.go:70-78 | the top band holds source row `PaddingTop`; everything else is unchanged |
| Padding.BottomPaddingReplicate | padding/padding.go:80-88 | the bottom band holds source row H - 1; everything else is unchanged |
| Padding.LeftPaddingReplicate | padding/padding.go:90-98 | the left band holds the buffer's column `left`, as it was before the call; everything else is unchanged |
| Padding.RightPaddingReplicate | padding/padding.go:100-108 | the right band holds the buffer's column `left + W - 1`, as it was before the call; everything else is unchanged |
| Padding.PaddedBounds | padding/padding.go:16-23 | fails exactly for a negative kernel size, with "Negative size"; otherwise the padded image is (W + kW - 1) x (H + kH - 1) |
| Padding.InteriorCopied | padding/padding.go:25-29 | source pixel (x, y) lands at (x + left, y + top) whenever the loop bounds reach it |
| Padding.TopMarginRow | padding/padding.go:70-78 | a top-margin pixel holds source row `PaddingTop`, and reads 0 when `PaddingTop` >= H |
| Padding.BottomMarginRow | padding/padding.go:80-88 | a bottom-margin pixel holds source row H - 1 |
| Padding.SideMarginsReplicate | padding/padding.go:90-108 | every left-margin pixel equals padded column `left` of its row, and every right-margin pixel equals padded column `left + W - 1`, corners included |
| Padding.EvenWidthDropsLastColumn | padding/padding.go:25-29 | when right = left - 1, the last source column is not copied and reads 0 |
| Padding.OddKernelClosedForm | padding/padding.go:16-45 | for odd kernels each padded pixel is the source pixel at the clamped column and the row the margins select |
| Padding.UniformStaysUniform | padding/padding.go:16-45 | padding a constant image with an odd kernel whose top margin lies inside the image gives a constant image |
| Convolution.KernelSum | convolution/convolution.go:23-30 | the two kernel loops add padded sample times weight, rows ky outer and columns kx inner |
| Convolution.ConvolveGray | convolution/convolution.go:12-37 | returns `Convolved`; fails exactly when the padding fails (a negative kernel size); otherwise the result has the input's bounds |
| Convolution.ConvolvedShape | convolution/convolution.go:14-20 | the padding error is returned unchanged, and a success keeps the bounds |
| Convolution.ReadsStayInPadded | convolution/convolution.go:24-28 | every sample the loops read lies inside the padded image |
| Convolution.UniformWindowGivesScaledTotal | convolution/convolution.go:22-33 | a constant window c sums to c times the total weight, and the pixel is that product saturated |
| Convolution.UniformImage | convolution/convolution.go:12-36 | for an odd kernel with kH / 2 < H (so the top margin's source row `PaddingTop` exists), a constant image gives c times the total weight, saturated: 0 for a zero-sum kernel, c for a kernel of total 1 |
| Convolution.WindowSumUniform | convolution/convolution.go:22-33 | a constant window c sums, row by row, to c times the kernel's total weight |
| Convolution.WindowSumScaled | convolution/convolution.go:22-30 | rows that each sum to c times their weight make a window summing to c times the weight of those rows |
| Convolution.IdentityKernel | convolution/convolution.go:12-36 | the 1x1 kernel of weight 1 returns the image unchanged |
| Convolution.IdentityPixel | convolution/convolution.go:22-33 | under the 1x1 kernel of weight 1 each output pixel is the input pixel |
| Blurring.Ceil | blurring/gaussian.go:19 | the least integer not below v |
| Blurring.KernelLengthBounds | blurring/gaussian.go:19 | the kernel side `int(Ceil(2r + 1))` is at least 2 for r > 0, and is 2r + 1 for an integral r |
| Blurring.GaussianKernel | blurring/gaussian.go:18-27 | a square kernel of that side whose cell (kx, ky) is the Gaussian weight |
| Blurring.GaussianBlurGray | blurring/gaussian.go:11-16 | fails with "radius must be bigger then 0" exactly when radius <= 0; otherwise the result has the input's bounds |
| Blurring.BlurKeepsUniform | blurring/gaussian.go:11-16 | for an integral radius r with r < H (the top margin's source row exists) and weights of total 1, a constant image stays constant |
| Gradient.SobelKernelShape | gradient/gradient.go:10-20 | the vertical kernel is the transpose of the horizontal one, and both have total weight 0 |
| Gradient.HorizontalSobelGray | gradient/gradient.go:22-24 | `ConvolveGray` with the horizontal kernel; it never fails and keeps the bounds |
| Gradient.VerticalSobelGray | gradient/gradient.go:26-28 | `ConvolveGray` with the vertical kernel; it never fails and keeps the bounds |
| Gradient.SobelOfUniformIsBlack | gradient/gradient.go:10-28 | both responses of a constant image of height at least 2 are 0 |
| Gradient.FlatStripVerticalResponse | gradient/gradient.go:16-28 | a constant image c of height 1 has vertical response 4c saturated at every pixel, so it is not black for c > 0, because the top margin reads the missing row 1 as 0 |
| Gradient.Orientation | gradient/gradient.go:55-73 | a success is one of 0, 45, 90, 135; a failure is "Invalid angle" |
| Gradient.OrientationDomain | gradient/gradient.go:55-73 | it succeeds iff -180 <= angle < 180, so it fails at exactly 180 |
| Gradient.OrientationHalfTurn | gradient/gradient.go:57-71 | angles 180 degrees apart get the same direction |
| Gradient.OrientationIsNearestDirection | gradient/gradient.go:57-71 | the half-open bands round to the nearest multiple of 45, with 180 folded onto 0 |
| Gradient.GradientAndOrientation | gradient/gradient.go:30-49 | returns "Invalid angle" when some pixel's angle is outside the bands; otherwise grids over the bounds of `vertical`, g = hypot(v, h) and theta = orientation(angle(v, h)) |
| Gradient.GradientShape | gradient/gradient.go:30-49 | on success both grids are W x H and theta takes only the four directions; angles in [0, 90] never fail; a non-negative hypot gives non-negative g |
| EdgeDetection_Sobel.KernelsMatchGradient | edgeDetection/sobel.go:10-20 | the package's kernels equal gradient.go's |
| EdgeDetection_Sobel.HorizontalSobelGray | edgeDetection/sobel.go:22-24 | `ConvolveGray` with the horizontal kernel; it never fails and keeps the bounds |
| EdgeDetection_Sobel.VerticalSobelGray | edgeDetection/sobel.go:26-28 | `ConvolveGray` with the vertical kernel; it never fails and keeps the bounds |
| EdgeDetection_Sobel.SobelGray | edgeDetection/sobel.go:30-46 | never fails, and keeps the input's bounds |
| EdgeDetection_Sobel.SobelIsFloorMean | edgeDetection/sobel.go:30-46 | each pixel is (h + v) div 2 of the two responses |
| EdgeDetection_Sobel.SobelOfUniformIsBlack | edgeDetection/sobel.go:10-46 | a constant image of height at least 2 gives 0 |
| EdgeDetection_Canny.NonMaxSuppression | edgeDetection/canny.go:49-79 | returns `Suppressed`, a fresh image over the input's bounds; g and theta are values, so they stay untouched |
| EdgeDetection_Canny.SuppressedBinaryWithBlackBorder | edgeDetection/canny.go:52-77 | every pixel is 0 or 255, and the one-pixel border is 0 |
| EdgeDetection_Canny.SuppressionThinsEdges | edgeDetection/canny.go:55-72 | when a kept pixel's two chosen neighbours share its direction, they are suppressed |
| EdgeDetection_Canny.StrictPeakIsKept | edgeDetection/canny.go:54-72 | an interior pixel with a quantised direction that is strictly above all eight neighbours is 255 |
| EdgeDetection_Canny.CheckNeighboursIff | edgeDetection/canny.go:81-86 | true iff at least one of the eight neighbours is 255 |
| EdgeDetection_Canny.DoubleThreshold | edgeDetection/canny.go:88-102 | returns `Thresholded`: 255 where the input is 255 and g > bound, 0 elsewhere |
| EdgeDetection_Canny.ThresholdKeepsSubset | edgeDetection/canny.go:91-100 | the output is binary, its edges are input edges, and g equal to the bound is rejected |
| EdgeDetection_Canny.ThresholdIdempotent | edgeDetection/canny.go:88-102 | thresholding twice with the same g and bound equals thresholding once |
| EdgeDetection_Canny.ThresholdMonotone | edgeDetection/canny.go:94 | a pixel kept under a higher bound is kept under a lower one |
| EdgeDetection_Canny.CannyGray | edgeDetection/canny.go:11-43 | returns `Canny`: the blur error, or an orientation error, or the thresholded suppression of the blurred image at bound 100 |
| EdgeDetection_Canny.CannyShape | edgeDetection/canny.go:11-43 | kernelSize 0 fails with the blur's error; a positive size with angles in range succeeds; a success has the input's bounds, is binary and has a black border |
| Edge_Detection_Sobel.KernelsMatch | edge_detection/sobel.go:10-20 | the package's kernels equal those of edgeDetection/sobel.go |
| Edge_Detection_Sobel.HorizontalSobelGray | edge_detection/sobel.go:22-24 | `ConvolveGray` with the horizontal kernel; it never fails and keeps the bounds |
| Edge_Detection_Sobel.VerticalSobelGray | edge_detection/sobel.go:26-28 | `ConvolveGray` with the vertical kernel; it never fails and keeps the bounds |
| Edge_Detection_Sobel.SobelGray | edge_detection/sobel.go:30-46 | computes the same function as edgeDetection's `SobelGray`, never fails and keeps the bounds |
| Edge_Detection_Canny.GradientAndOrientation | edge_detection/canny.go:47-66 | the same result as gradient.go's: grids sized from `vertical`, "Invalid angle" on the first pixel outside the bands |
| Edge_Detection_Canny.NonMaxSuppression | edge_detection/canny.go:96-126 | the same function as edgeDetection's suppression |
| Edge_Detection_Canny.DoubleThreshold | edge_detection/canny.go:135-149 | the same function as edgeDetection's threshold |
| Edge_Detection_Canny.CannyGray | edge_detection/canny.go:13-45 | computes the same function as edgeDetection's `CannyGray`; kernelSize 0 fails |
| Sift.PowerTableAt | sift/sift_feature.go:31-37 | entry i of the sigma table is k^i |
| Sift.Sigmas | sift/sift_feature.go:31-37 | `sig` has `scale` entries with sig[i] = k^i |
| Sift.BlurStepShape | sift/sift_feature.go:49-54 | the radius-5 blur never fails, so the panic is unreachable, and it keeps the bounds |
| Sift.BlurShape | sift/sift_feature.go:49-54 | the blur of the scale space is `GaussianBlurGray` at radius 5 and keeps shapes |
| Sift.ScaleLayerShape | sift/sift_feature.go:39-56 | every cell is valid, has the bounds of its row's first cell, and row 0 has the input's bounds |
| Sift.ScaleRowCells | sift/sift_feature.go:41-55 | row r holds `scale` cells and cell c is `ScaleLayer(r, c)` |
| Sift.ScaleSpaceRows | sift/sift_feature.go:39-56 | the scale space holds `octave` rows, built the same way |
| Sift.LastRowStart | sift/sift_feature.go:46-47 | the first cell of the last row is the halving chain's value |
| Sift.ScaleSpaceCell | sift/sift_feature.go:39-56 | cell (r, c) is `ScaleLayer(r, c)`: the input at (0, 0), the halved base of row r - 1 at column 0, and the blurred cell c - 1 otherwise |
| Sift.BlurCell | sift/sift_feature.go:49-53 | returns the blurred previous cell |
| Sift.FillScaleRow | sift/sift_feature.go:41-55 | the column loop builds row `row` of the scale space |
| Sift.CreateScaleSpace | sift/sift_feature.go:30-58 | returns `ScaleSpace`: octave rows of scale cells, as described above |
| Sift.ScaleSpaceShape | sift/sift_feature.go:39-56 | octave x scale cells, each valid with its row's bounds |
| Sift.DoGRowCells | sift/sift_feature.go:63-67 | DoG row layer c is `SubtractGrayImages(cell c, cell c + 1)` |
| Sift.DoGRows | sift/sift_feature.go:60-71 | the DoG holds `octave` rows of scale - 1 layers |
| Sift.DoGCellsValid | sift/sift_feature.go:60-71 | every DoG layer is a well-formed image |
| Sift.SubtractRow | sift/sift_feature.go:63-67 | the column loop builds one DoG row |
| Sift.CreateDoG | sift/sift_feature.go:60-71 | returns `DoG`: octave x (scale - 1) layers |
| Sift.DoGLayer | sift/sift_feature.go:60-71 | a DoG layer has its row's bounds, and pixel (x, y) is (cell c - cell c + 1) mod 256 |
| Sift.DoGOfScaleSpace | sift/sift_feature.go:30-71 | the same fact stated on the scale-space layers themselves |
| Sift.DirectionsCoverCube | sift/sift_feature.go:74 | the 27 directions cover the cube {-1,0,1}^3 |
| Sift.CubeDirections | sift/sift_feature.go:74 | `Create3DDirection` enumerates the cube |
| Sift.LocalMinimum | sift/sift_feature.go:76-84 | true iff no cube sample lies strictly below the centre |
| Sift.LocalMaximum | sift/sift_feature.go:86-94 | true iff no cube sample lies strictly above the centre |
| Sift.CubeMinIsEnumeratedMin | sift/sift_feature.go:76-84 | the cube test equals the 27-step loop's test, with the centre included |
| Sift.CubeMaxIsEnumeratedMax | sift/sift_feature.go:86-94 | the same for the maximum |
| Sift.ScanLayer | sift/sift_feature.go:100-114 | one layer's scan appends exactly `LayerCandidates` |
| Sift.ScanRow | sift/sift_feature.go:99-115 | one row's scan over layers 1 .. scale - 3 appends exactly `RowCandidates` |
| Sift.ScanNextLayer | sift/sift_feature.go:99-115 | one step of the layer loop: the candidates of layers 1 .. col - 1 followed by layer col's are those of layers 1 .. col |
| Sift.ExtractKeyPoints | sift/sift_feature.go:73-118 | returns `Candidates(dog, octave, scale)` |
| Sift.ScanPixelsMembers | sift/sift_feature.go:102-114 | a key point is appended iff it records this layer and a visited pixel that is a candidate |
| Sift.ScanPixelsOfPixelOrder | utils/utils.go:10-16 | scanning ForEachPixel's visits in call order finds the same key points as scanning the layer column by column, x outer and y inner |
| Sift.LayerMembers | sift/sift_feature.go:100-114 | a layer's key points are exactly its in-bounds candidates, recording (row, col) |
| Sift.RowMembers | sift/sift_feature.go:99-115 | a row's key points are exactly the candidates of layers 1 .. n - 1 |
| Sift.CandidatesMembers | sift/sift_feature.go:98-116 | kp is returned iff 0 <= octave < n, 1 <= scale < scale - 2, (x, y) is in bounds, and (x, y) is off the border and a cube minimum or maximum |
| Sift.CandidatesInterior | sift/sift_feature.go:99-105 | no candidate uses the first or last layer, or lies on x = 0, y = 0, x = W - 1 or y = H - 1 |
| Sift.FlatIsCandidate | sift/sift_feature.go:76-94 | the test is non-strict: a flat cube is both a minimum and a maximum, so it qualifies |
| Sift.UniformLayersAreCandidates | sift/sift_feature.go:76-94 | three constant neighbouring layers make every off-border pixel a candidate |
| Sift.LayerAscending | sift/sift_feature.go:102-114 | a layer's key points are strictly ascending by x, then y |
| Sift.RowAscending | sift/sift_feature.go:99-115 | a row's key points are strictly ascending by layer, x, then y |
| Sift.CandidatesAscending | sift/sift_feature.go:98-116 | the candidates are strictly ascending by octave, layer, x, then y |
| Sift.CandidatesOrdered | sift/sift_feature.go:96-117 | strictly ascending, so no key point is appended twice |
| SiftGradient.Max | sift/sift_feature.go:129 | `math.Max`: +Inf wins, then NaN, and otherwise the larger value |
| SiftGradient.Div | sift/sift_feature.go:135 | float64 division: NaN propagates; division by a non-zero value is exact; on a zero maximum it gives NaN, +Inf or -Inf by the sign of the dividend |
| SiftGradient.GradianSpec.constructor | sift/sift_feature.go:120-123 | a slot holding the two grids |
| SiftGradient.GradianSpec.Normalize | sift/sift_feature.go:125-138 | g becomes every entry divided by the maximum of `math.Max` folded from 0; theta is unchanged |
| SiftGradient.RowMaximum | sift/sift_feature.go:128-130 | the inner max loop folds `math.Max` over one row |
| SiftGradient.RowMaxBounds | sift/sift_feature.go:127-131 | over finite values, the fold is at least the start and every entry, and equals one of them |
| SiftGradient.GridMaxBounds | sift/sift_feature.go:126-131 | the same over the whole grid |
| SiftGradient.PeakBounds | sift/sift_feature.go:126-131 | the maximum of finite magnitudes is a non-negative finite value above every entry, and a positive maximum is an entry |
| SiftGradient.NormalizedAt | sift/sift_feature.go:133-137 | entry (i, j) after normalize is the old entry divided by the maximum |
| SiftGradient.NormalizedBounds | sift/sift_feature.go:125-138 | with a positive maximum, every entry becomes finite and <= 1, non-negative entries stay non-negative, and some entry is exactly 1 |
| SiftGradient.NormalizedZeroPeak | sift/sift_feature.go:125-138 | with maximum 0, zero entries become NaN (0/0) and negative ones -Inf; an all-zero grid becomes all NaN |
| SiftGradient.RowMaxKeepsPosInf | sift/sift_feature.go:127-131 | once +Inf is met, the row fold stays +Inf |
| SiftGradient.GridMaxKeepsPosInf | sift/sift_feature.go:126-131 | the same over the grid |
| SiftGradient.InfinitePeak | sift/sift_feature.go:125-138 | a +Inf entry makes the maximum +Inf and every finite entry 0 |
| SiftGradient.ComputeSlot | sift/sift_feature.go:155-166 | the body of the layer loop: both Sobel responses (gX passed as `vertical`), the gradient, and the normalized slot |
| SiftGradient.LayerSlotShape | sift/sift_feature.go:155-166 | for a valid layer, the slot's g is W x H and theta is W x H over the four directions |
| SiftGradient.FillGradientRow | sift/sift_feature.go:153-168 | row `row` holds `scale` slots, filled for layers 1 .. scale - 3 and empty elsewhere |
| SiftGradient.CreateGradientSpec | sift/sift_feature.go:140-172 | returns `GradientTable`: octave x scale slots, as described above |
| SiftGradient.FilterKeyPoints | sift/sift_feature.go:174-183 | returns `Kept`: candidates whose slot magnitude is > tresh, in order |
| SiftGradient.KeptMembers | sift/sift_feature.go:177-181 | kp is kept iff it is a candidate and its magnitude is > tresh (NaN is never kept, +Inf always is) |
| SiftGradient.KeptConcat | sift/sift_feature.go:177-181 | filtering distributes over concatenation, so it preserves order |
| SiftGradient.KeptAscending | sift/sift_feature.go:174-183 | the kept sequence is an ascending subsequence of ascending candidates |
| SiftGradient.CandidatesIndexSlots | sift/sift_feature.go:152-172 | every candidate's (octave, scale, x, y) indexes a slot that createGradientSpec fills, namely its own layer's |
| SiftGradient.SiftFeatures | sift/sift_feature.go:19-28 | returns `SiftSpec`: the filtered candidates of the DoG of the scale space |
| SiftGradient.SiftFeaturesResult | sift/sift_feature.go:19-28 | kp is returned iff it is an extremum candidate of DoG layers 1 .. scale - 3 whose normalized magnitude in its own layer exceeds tresh; the result is strictly ascending |

## Left out

- main/main.go: its file I/O, JPEG decoding and encoding, command-line arguments and printing are not modelled.
- `fmt.Println` in convolution/convolution.go:35 and sift/sift_feature.go:24: console output, not modelled.
- Foreign and floating-point computations are parameters. This covers the Gaussian weights (`exp`, pi and `Kernel.Normalize`), `math.Hypot`, `math.Atan2` with the degree conversion, `math.Pow` for k, and `utils.HalveImage`. The last is a bilinear resampler from another library; `utils.GrayScale`, which it uses, is not part of this model.
- `HalvesValid` asks only that `halve` returns a well-formed image. Nothing is assumed about its size.
- The kernel type's internals (`NewKernel`, `At`, `Size`, `Set`, `Normalize`) come from a file that is not part of this model. The model keeps a kernel as its width, height and row-major weights.
- `utils.MinUint8` and `utils.MaxUint8` are taken to be 0 and 255.
- Floating-point rounding: reals stand for float64 everywhere. In the normalised magnitudes, `SiftGradient.Float` adds NaN and the infinities, because a zero maximum gives 0/0. Signed zero and rounding are not modelled.
- The sigma table is built by exact multiplication: sig[i] = k^i, with no rounding.
- Go's `ForEachPixel` takes a callback. Its callers are modelled with the same x-outer, y-inner loops inline, and `Utils.ForEachPixel` returns the visit sequence instead of calling a closure.
- Values instead of aliasing: Go slices and images are shared by reference. The model passes them as values, so it does not capture mutation through an alias.
- SiftGradient.GradianSpec.Normalize works on a `GradianSpec` object in place. The table that createGradientSpec builds holds its result as a `Slot` value.
- A negative padded extent is taken as 0. The extent is then -1, which happens only for a kernel width of 0 on an image of width 0, or a kernel height of 0 on an image of height 0. Go's `image.Rect` swaps the corners, so `Padding` returns a 1-wide (1-high) image over [-1, 0); the model's padded image is 0-wide (0-high) instead. Only `Padding`'s own bounds differ: `ConvolveGray`'s output has the empty input's bounds either way, so the difference does not reach it.
- The unused `uint8(g)` image in both CannyGray functions (edgeDetection/canny.go:31-36, edge_detection/canny.go:33-38) is dead code and is not built.
- Panics are not modelled as a result. The blur panic in createScaleSpace is proved unreachable. The three panics in createGradientSpec are the `Unfilled` branches of `LayerSlot`. They are unreachable under `AngleInRange`, i.e. when `angle` yields values in [0, 90] on sample pairs: atan2 of two non-negative samples lies in that range.
- SiftGradient.SiftFeatures: it requires `scale >= 1`, because Go's `sig[0] = 1` panics for scale 0. It requires `oct` to be non-negative, because `make` panics otherwise. It takes `tresh` as a finite real.
- SiftGradient.SiftFeatures: its ensures fixes the blur to `Sift.Blur(gaussian)`. The scale-space lemmas are generic in any shape-keeping `blur`.
- Sift.CreateScaleSpace: it takes a ghost `blur` that stands for the radius-5 Gaussian blur (`Sift.BlurShape` shows the real one qualifies). It keeps proofs from unfolding the convolution. Its contract is stated for any such blur.
- The package-local `isBetween`, `orientation`, `isBiggerThenNeighbours` and `checkNeighbours` of edge_detection/canny.go are textually the same as those of gradient/gradient.go and edgeDetection/canny.go. They are modelled once, by `Gradient.Orientation` and the `EdgeDetection_Canny` predicates. The loop functions `gradientAndOrientation`, `nonMaxSuppression` and `doubleThreshold` of that file are textually the same as well: `Edge_Detection_Canny.GradientAndOrientation`, `NonMaxSuppression` and `DoubleThreshold` call the shared loop methods (`Gradient.GradientAndOrientation`, `EdgeDetection_Canny.NonMaxSuppression`, `EdgeDetection_Canny.DoubleThreshold`) instead of repeating the loops.
- `Padding.GetRectangleFromPaddings`: the rectangle is reduced to a size from (0, 0). Go's rectangle starts at (0, 0) whenever both sums are non-negative, and at -1 on an axis whose sum is -1 (the line on negative extents above).
