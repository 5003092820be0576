# Ridge masks, skeleton features, AFT track metrics and path substitution

This project models the discrete bookkeeping of an ECM fibre and cell-migration analysis
toolkit. It models the code that sits around its numerical libraries, and proves properties
of that model:

- **Ridge detection** (`RidgeDetection`, `src/segmentation.py`):
  - ordering each pixel's two Hessian eigenvalues by magnitude;
  - the clamped, min-max scaled response;
  - the per-line-width band mask, with background pixels set to `-inf`;
  - the OR of the masks over all line widths;
  - the optional skeleton stage.
- **Skeleton filtering** (`SkeletonFilter`, `src/segmentation.py`):
  - the rule that keeps a skan branch, by type and length;
  - painting the kept branches into a fresh mask;
  - ordered extraction of coordinates;
  - the window loop of the curvature measure.
- **Patch features** (`SegmentationFeatures`, `src/segmentation.py`):
  - the patch window around each AFT patch centre;
  - ridge density (HDM);
  - endpoint and branch-point counts, and the same counts per unit of branch length;
  - the loops over patches and images.
- **AFT matching** (`AftMetrics`, `src/AFT_metrics.py`):
  - image labels and `ECM_k` ids;
  - per-track frame ordering with de-duplication;
  - step pairing;
  - nearest-patch lookup (the k-d tree query as an argmin that breaks ties by lowest index);
  - choosing the angle frame;
  - the flat-index, border and neighbourhood logic of the local order parameter.
- **Track metrics** (`TrackMetrics`, `src/AFT_additional_parameters.py`):
  - sorting by track and frame;
  - forward steps and backward steps;
  - net distance and total distance;
  - the consistency index with its zero guard;
  - the sign split of the forward-migration-index contributions;
  - the early `return` in both per-track loops;
  - the normalised fibre angle.
- **Path substitution** (`IncludePath`, `app/python_scripts/include_path.py`):
  - on Windows, every `\` in the path becomes `/`;
  - Python `str.replace` semantics, including the empty keyword;
  - missing files are skipped;
  - files are rewritten in list order.

Shared helpers live in `wrappers.dfy` and `strings.dfy`:

- `Option` and `Result`;
- grids as `seq<seq<T>>`;
- pandas-style `Filter` and `Unique`;
- an insertion sort that is stable on ties;
- Python `str.replace`, `os.path.basename` and `os.path.splitext`;
- decimal rendering of ids.

**Library results are inputs.** The model takes the results of foreign library calls as plain
values or as total function parameters. These are:

- the Hessian eigenvalue grids and the thresholds of each line width;
- `skeletonize`;
- skan's branch summary, as rows holding every summary column, and its path coordinates;
- node degrees;
- the AFT coordinates and angle grids;
- the order formula, and the perpendicular-distance mean of a curvature window;
- the Euclidean length `sqrt(dx**2 + dy**2)`.

The Euclidean length is a parameter `norm`. Lemmas that need it to behave like a length
require `NormLike`: non-negative, and positive for a step that moves.

**Values and state.**

- Python `NaN`/`None` results are `Option` values.
- Exceptions the code can raise (`IndexError`, `ValueError`) are `Result` failures.
- The file system of `include_path` is a `map<string, string>` that is passed in and returned.
- Its printed messages are returned as a log of `Message` values.
- Loops in the source are methods with loops, each proved equal to a specification function.
- Lemmas state what those functions mean.

## Model

| member | source | states |
|---|---|---|
| RidgeDetection.SwapCell | src/segmentation.py:148-166 | the first value of the pair has the larger magnitude; the pair is the input pair, exchanged only when the second magnitude is strictly larger |
| RidgeDetection.SwapByMagnitude | src/segmentation.py:148-166 | after the masked swap every pixel holds its eigenvalue pair ordered by magnitude, `abs(l1') >= abs(l2')` |
| RidgeDetection.Clamp | src/segmentation.py:169-172 | the response is `max(0, -l1')` for dark lines and `max(0, l1')` for bright ones: non-negative, at least the signed value, and equal to 0 or to it |
| RidgeDetection.ScaledCellBounds | src/segmentation.py:174-178 | one shifted value scales into [0,255]; 0 maps to 0, and the maximum maps to 255 when the maximum is positive |
| RidgeDetection.NormaliseRange | src/segmentation.py:174-178 | every normalised value lies in [0,255]; some pixel becomes 0; some pixel becomes 255 whenever any response exceeds the minimum |
| RidgeDetection.ConstantResponseNormalisesToZero | src/segmentation.py:174-178 | a constant response (maximum 0 after the shift) normalises to 0 everywhere |
| RidgeDetection.HessianRidgeResponse | src/segmentation.py:141-180 | the returned response is the swapped, clamped and normalised eigenvalue, and every pixel lies in [0,255] |
| RidgeDetection.Exclude | src/segmentation.py:203-204 | a pixel marked in the image mask becomes `-inf`; every other pixel keeps its response |
| RidgeDetection.Band | src/segmentation.py:206 | a pixel is in the mask iff `lower <= level <= upper`, with `-inf` below every threshold |
| RidgeDetection.WidthMaskBand | src/segmentation.py:203-206 | a pixel is in a width's mask iff it is not background and its response lies in [lower, upper]; a background pixel never is |
| RidgeDetection.RidgeMaskForLineWidth | src/segmentation.py:184-207 | returns the band mask, the response with background set to `-inf`, and the width's two thresholds |
| RidgeDetection.Or | src/segmentation.py:416 | `combined_mask \|= mask_lw` pixel by pixel |
| RidgeDetection.CombinedUpToMeaning | src/segmentation.py:402-416 | a pixel is set iff the mask of some contributing width sets it (`minLineWidth`, or a width in `minLineWidth+1 .. upto`) |
| RidgeDetection.CombineLineWidths | src/segmentation.py:396-416 | the width loop computes the OR over the contributing widths; when `maxLineWidth <= minLineWidth` the result is `minLineWidth`'s mask alone |
| RidgeDetection.SkeletonStage | src/segmentation.py:419-426 | a skeleton exists only with `do_skeleton` and with at least one pixel; without pruning, a skeletonised mask with a pixel is returned as it is; with pruning, a pixel of the result is set exactly when it lies on a kept branch of the skeleton's summary, and no kept pixel means no skeleton |
| RidgeDetection.EmptySkeletonIsNone | src/segmentation.py:423-424 | a skeleton with no pixel is reported as `None`, whether pruned or not |
| RidgeDetection.RunMultiscaleRidgeDetection | src/segmentation.py:363-429 | the combined mask is the OR over the contributing widths, and the skeleton is the skeleton stage applied to it |
| SkeletonFilter.SelectBranches | src/segmentation.py:113-119 | the selected branches are exactly the input branches the keep rule accepts: type 2, or type 0, 1 or 3 with length at least `min_len` |
| SkeletonFilter.SelectedCells | src/segmentation.py:113-123 | the pixels of the selected branches are exactly the pixels of the branches the rule keeps |
| SkeletonFilter.Pruned | src/segmentation.py:96-137 | an absent or all-zero skeleton is returned unchanged; otherwise a pixel is true iff it lies on a kept branch |
| SkeletonFilter.PaintPath | src/segmentation.py:121-123 | after painting a path, a pixel is true iff it was true before or lies on the path |
| SkeletonFilter.RemoveShortComponents | src/segmentation.py:96-137 | a fresh all-false mask, painted branch by branch, ends up true exactly on the kept branches; an empty skeleton is returned as it is |
| SkeletonFilter.CoordsFrom | src/segmentation.py:246-249 | the row-major scan from `(y, x)` yields exactly the cells true in both grids at or after `(y, x)`, in strictly increasing order |
| SkeletonFilter.GetComponentCoords | src/segmentation.py:244-252 | exactly the cells true in both `skel` and `comp_mask`, strictly increasing in (y, x), so with no duplicates |
| SkeletonFilter.CurveValuesEmpty | src/segmentation.py:301-320 | no value is collected iff every examined window has equal first and last points (a chord of length zero) |
| SkeletonFilter.CurveValuesStep | src/segmentation.py:301-320 | one examined window moves its value, if any, from the values still to collect to those already collected |
| SkeletonFilter.Curvature | src/segmentation.py:295-322 | NaN for a path shorter than the window or with no collected value; otherwise the mean of the values of windows started at `0 .. len-window-1` |
| SkeletonFilter.PathOfWindowLengthHasNoCurvature | src/segmentation.py:296-301 | the window ending at the last point is never examined, so a path exactly one window long yields NaN |
| SegmentationFeatures.Trunc | src/segmentation.py:486-495 | `int(v)` truncates toward zero |
| SegmentationFeatures.SubGrid | src/segmentation.py:508-512 | the slice `[y1:y2, x1:x2]` has the window's shape and holds the image cells at the offset positions |
| SegmentationFeatures.EndpointsPerBranch | src/segmentation.py:545-549 | twice the type-0 count plus the type-1 count equals the sum over branches of each branch's own endpoints |
| SegmentationFeatures.BranchPointsAreDegreeThree | src/segmentation.py:552-557 | the branch-point count is the number of graph nodes of degree exactly 3 |
| SegmentationFeatures.PerLength | src/segmentation.py:561-566 | a normalised count exists iff the total branch length is positive; when it exists, it times the total is the count |
| SegmentationFeatures.HdmInUnitRange | src/segmentation.py:518 | HDM lies in [0,1] and is 0 iff the mask patch has no set pixel |
| SegmentationFeatures.RecordOfMeaning | src/segmentation.py:518-612 | a patch record carries the image label and centre; `drop_duplicates()` on the summary table, which compares every column, leaves each distinct row exactly once; the endpoint count is taken over those rows; the branch points are the degree-3 nodes; HDM lies in [0,1]; the normalised counts exist iff the de-duplicated branch length is positive |
| SegmentationFeatures.IdenticalRowsCountOnce | src/segmentation.py:542-566 | two branches with identical summary rows, such as two equal-length arcs joining the same two junctions, become one row: their endpoints and length are counted once |
| SegmentationFeatures.PatchFeaturesBounds | src/segmentation.py:497-535 | a patch whose window leaves the image, or whose skeleton window is empty, is skipped; a record comes only from a window of positive side inside the image |
| SegmentationFeatures.ImageFeatures | src/segmentation.py:493-612 | the patch loop appends exactly the records of the kept patches of the first `min(len(x), len(y))` centres, in order |
| SegmentationFeatures.ImageFeaturesOf | src/segmentation.py:441-512 | the corrected loop body: the image mask is passed to the detector as given. One image contributes no record without a skeleton; otherwise it contributes its patch records, labelled by `splitext(basename(path))[0]` |
| SegmentationFeatures.Features | src/segmentation.py:431-614 | the corrected definition, which passes the image mask on as given: the records of all images, concatenated in image order |
| SegmentationFeatures.FeaturesAsWritten | src/segmentation.py:431-614 | the code as written: the same records computed with the mask `MaskAsWritten(imMask)`, all-true when no mask is given |
| SegmentationFeatures.MaskAsWritten | src/segmentation.py:461-466 | as written, without an image mask the detector receives an all-true grid of the image's shape; a given mask is passed on unchanged |
| SegmentationFeatures.AllBackgroundMaskIsEmpty | src/segmentation.py:203-206 | under an all-true image mask, no width's mask and so no combined mask has a pixel |
| SegmentationFeatures.MissingMaskImageHasNoRecords | src/segmentation.py:461-484 | as written, an image processed without an image mask has no skeleton, so it contributes no record |
| SegmentationFeatures.MissingMaskYieldsNoRecords | src/segmentation.py:441-484 | as written, a call without an image mask yields no record at all |
| SegmentationFeatures.NoMaskKeepsEveryPixel | src/segmentation.py:402-416 | with no image mask passed on, a pixel of the ridge mask is set iff some contributing width's response lies within that width's thresholds |
| AftMetrics.ImageLabelRemovesEvery | src/AFT_metrics.py:51-53 | the label is the basename with every non-overlapping `.tif` removed, not only a suffix; a basename without `.tif` is kept whole |
| AftMetrics.EcmId | src/AFT_metrics.py:77 | the id of patch `i` is `ECM_` followed by decimal digits that read back as `i + 1` |
| AftMetrics.EcmIds | src/AFT_metrics.py:77 | `n` ids, the i-th being `ECM_<i+1>` |
| AftMetrics.EcmIdInjective | src/AFT_metrics.py:77 | different patch positions get different ids |
| AftMetrics.EcmIdsDistinct | src/AFT_metrics.py:77 | the patch ids of one image are pairwise distinct |
| AftMetrics.InsertByFrameFrames | src/AFT_metrics.py:89 | inserting a row adds its frame to the frames present |
| AftMetrics.InsertByFrameMembers | src/AFT_metrics.py:89 | insertion keeps every earlier row and adds no row but the inserted one |
| AftMetrics.InsertByFrameStrict | src/AFT_metrics.py:89 | insertion keeps the rows strictly ordered by frame |
| AftMetrics.SortDedupByFrameOrders | src/AFT_metrics.py:89 | after `sort_values('FRAME').drop_duplicates('FRAME')` the frames strictly increase, the frame set is unchanged, and every row is an input row |
| AftMetrics.StrictFramesCount | src/AFT_metrics.py:89 | strictly ordered rows have exactly as many rows as distinct frames |
| AftMetrics.SortDedupCount | src/AFT_metrics.py:89 | a de-duplicated track has one row per distinct frame |
| AftMetrics.Nearest | src/AFT_metrics.py:98-99 | the chosen patch minimises the squared distance to the step's start point, and every earlier patch is strictly farther |
| AftMetrics.NearestUnique | src/AFT_metrics.py:98-99 | the lowest-index closest patch is unique |
| AftMetrics.NearestPatch | src/AFT_metrics.py:98-99 | the argmin loop returns a closest patch that no earlier patch ties |
| AftMetrics.ValueAt | src/AFT_metrics.py:107-118 | a 2-D grid is read at the patch for every step; a 3-D result reads frame `t`, the step's position in the track (not the track row's `FRAME`); an index outside the data fails with `IndexError` |
| AftMetrics.SingleFrameIgnoresStep | src/AFT_metrics.py:108-110 | with a single-frame grid the value read does not depend on the step number |
| AftMetrics.StepAtRecord | src/AFT_metrics.py:93-125 | a step fails without patches; a recorded step has the nearest patch's id and coordinates, the start row's track and frame, the values read at that patch for that step, and the step's displacement |
| AftMetrics.Then | src/AFT_metrics.py:158-160 | concatenation of partial results succeeds iff both parts do, and then appends them |
| AftMetrics.TrackSteps | src/AFT_metrics.py:93 | `n` successful steps give `n` records |
| AftMetrics.TrackStepsAt | src/AFT_metrics.py:93-125 | a track's steps succeed iff every step does, and then record `t` is the record of step `t` |
| AftMetrics.TrackRecordCount | src/AFT_metrics.py:89-93 | a track with `k` distinct frames yields `k - 1` step records, so a single-frame track yields none |
| AftMetrics.StepRecordOf | src/AFT_metrics.py:95-125 | one step of the loop yields the record of the step specification |
| AftMetrics.TrackStepRecords | src/AFT_metrics.py:93-125 | the step loop over `range(len(df_track) - 1)` yields the track's step records |
| AftMetrics.TrackRecordsOf | src/AFT_metrics.py:88-125 | a track's rows are filtered, ordered and de-duplicated, then its steps are recorded |
| AftMetrics.TrackRecords | src/AFT_metrics.py:89-125 | every step record of one track carries the image name and that track's id |
| AftMetrics.TracksRecords | src/AFT_metrics.py:88-158 | every record of the track loop carries the image name and the id of one of the tracks looped over |
| AftMetrics.ImageRecordsFields | src/AFT_metrics.py:51-158 | on success, every record of an image carries its label (`basename` with every `.tif` removed) and the track id of a spot of that image |
| AftMetrics.TracksStepRecords | src/AFT_metrics.py:88-158 | the track loop concatenates the tracks' records in order, stopping at the first failure |
| AftMetrics.ImageStepRecords | src/AFT_metrics.py:78-160 | one image's records: its label, its subset of spots, and its unique tracks |
| AftMetrics.AftAiMetric | src/AFT_metrics.py:17-163 | the image loop concatenates every image's records in image order |
| AftMetrics.RowCol | src/AFT_metrics.py:194-195 | the column `idx % ncols` is below `ncols` |
| AftMetrics.RowColInGrid | src/AFT_metrics.py:193-195 | `row * ncols + col == idx`, the row is below `nrows`, and the mapping is one-to-one |
| AftMetrics.PatchIndexInGrid | src/AFT_metrics.py:191-195 | every patch index of a well-shaped result falls inside the angle grid |
| AftMetrics.Neighbourhood | src/AFT_metrics.py:207 | the neighbourhood is the `(2R+1)`-square of theta rows `r-R..r+R` and columns `c-R..c+R`, with the centre at `(R, R)` |
| AftMetrics.OrderValue | src/AFT_metrics.py:197-215 | NaN iff the radius-R square leaves the grid or the centre angle is NaN; otherwise the order of the neighbourhood about the centre angle |
| AftMetrics.OrderRecordAt | src/AFT_metrics.py:218-227 | the record of patch `idx` has the id `ECM_<idx+1>` and that patch's coordinates |
| AftMetrics.ImageOrderRecords | src/AFT_metrics.py:193-227 | one record per patch index, in index order: record `idx` is the record of patch `idx`, border and NaN patches included |
| AftMetrics.OrderRecordsCount | src/AFT_metrics.py:172-227 | the table has one record per patch of every image |
| AftMetrics.ImageOrder | src/AFT_metrics.py:193-227 | the index loop yields the records of every patch, in index order |
| AftMetrics.OrderValueOf | src/AFT_metrics.py:194-215 | the loop body computes the order value of the specification |
| AftMetrics.AftOrderParameter | src/AFT_metrics.py:165-231 | the image loop concatenates every image's records in image order |
| TrackMetrics.TrackFrameLeTotalPreorder | src/AFT_additional_parameters.py:8 | ordering by (`TRACK_ID`, `FRAME`) is a total preorder |
| TrackMetrics.TrackFrameEcmLeTotalPreorder | src/AFT_additional_parameters.py:62 | ordering by (`TRACK_ID`, `FRAME`, `ECM_ID`) is a total preorder |
| TrackMetrics.SortByTrackFrameSorts | src/AFT_additional_parameters.py:8 | the sorted table is ordered by track and frame and is a permutation of the input |
| TrackMetrics.TrackRowsOfPresentTrack | src/AFT_additional_parameters.py:9-10 | a track id from `unique()` selects at least one row |
| TrackMetrics.BackwardIsShiftedForward | src/AFT_additional_parameters.py:110-111 | a backward step is the forward step one place earlier; the first backward step and the last forward step are missing |
| TrackMetrics.NanSumOfNone | src/AFT_additional_parameters.py:14-18 | with every value missing, the sum is 0 and nothing counts toward the mean |
| TrackMetrics.NanSumNonNegative | src/AFT_additional_parameters.py:18 | a sum of non-negative present values is non-negative, and positive once one of them is |
| TrackMetrics.ForwardStepsTelescope | src/AFT_additional_parameters.py:11-12 | the forward steps add up to the last position minus the first |
| TrackMetrics.BackwardStepsTelescope | src/AFT_additional_parameters.py:110-111 | the backward steps add up to the last position minus the first |
| TrackMetrics.StepLengthsNonNegative | src/AFT_additional_parameters.py:14 | every present step length is non-negative |
| TrackMetrics.ConsistencyIndex | src/AFT_additional_parameters.py:19-22 | NaN iff the total is 0; otherwise the index times the total is the net distance |
| TrackMetrics.TrackStepSums | src/AFT_additional_parameters.py:11-17 | the x and y steps sum to the displacement, so the net distance depends only on the first and last positions |
| TrackMetrics.TrackDistances | src/AFT_additional_parameters.py:14-22 | the total distance is non-negative, and the consistency index is net over total, NaN exactly when the total is 0 |
| TrackMetrics.TrackMetricsMeaning | src/AFT_additional_parameters.py:10-22 | the TrackStepSums and TrackDistances properties, for one track's metrics |
| TrackMetrics.SingleFrameTrack | src/AFT_additional_parameters.py:11-22 | a single-frame track has total 0, no mean step length and a NaN consistency index |
| TrackMetrics.TrackAdditionalMetrics | src/AFT_additional_parameters.py:6-47 | the loop computes the as-written result, which returns from the first pass: `None` for an empty table, else one track's record |
| TrackMetrics.FirstTrackIsSmallest | src/AFT_additional_parameters.py:8-9 | after a sort that puts smaller track ids first, the first unique id is the table's smallest |
| TrackMetrics.TrackAdditionalMetricsFirstTrackOnly | src/AFT_additional_parameters.py:9-47 | as written, the result is `None` iff the table is empty; otherwise it is one record, for the smallest track id |
| TrackMetrics.AllTrackMetricsOnePerTrack | src/AFT_additional_parameters.py:9-45 | the intended result has one record per distinct track id of the table, none twice |
| TrackMetrics.TrackRowsInFrameOrder | src/AFT_additional_parameters.py:8-10 | each track's metrics see exactly that track's rows, in non-decreasing frame order |
| TrackMetrics.AllTrackAdditionalMetrics | src/AFT_additional_parameters.py:7-45 | the loop with its return after the loop computes a record for every track |
| TrackMetrics.EarlyReturnDropsTracks | src/AFT_additional_parameters.py:47 | for any table with two track ids, the code as written reports one record where the intended result has more |
| TrackMetrics.EcmRecords | src/AFT_additional_parameters.py:64-101 | the first `n` patches give `n` records |
| TrackMetrics.TrackEcmLoop | src/AFT_additional_parameters.py:64-101 | the patch loop computes the track's per-patch result: the records of every patch id, or `IndexError` (`iloc[-1]` on no rows) when some patch has no row of the track |
| TrackMetrics.SortByTrackFrameEcm | src/AFT_additional_parameters.py:62 | the sort is a permutation of the rows |
| TrackMetrics.TrackAdditionalMetricsPerEcm | src/AFT_additional_parameters.py:60-102 | the loops compute the as-written result, in which the track loop returns from its first pass, after that track's patch loop |
| TrackMetrics.NoRowsInEcm | src/AFT_additional_parameters.py:65 | a (track, patch) selection of the sorted table is empty iff the table has no such row |
| TrackMetrics.FirstTrackSmallest | src/AFT_additional_parameters.py:62-63 | the first track processed is the table's smallest track id |
| TrackMetrics.PerEcmNoneIffEmpty | src/AFT_additional_parameters.py:63-102 | as written, the per-patch result is `None` iff the table is empty |
| TrackMetrics.PerEcmFailsIffPatchMissing | src/AFT_additional_parameters.py:64-72 | as written, the call fails iff some patch id of the table holds no row of the smallest track |
| TrackMetrics.PerEcmSuccessValue | src/AFT_additional_parameters.py:63-102 | a successful call holds the first track's records for every patch id |
| TrackMetrics.EcmRecordsMeaning | src/AFT_additional_parameters.py:64-101 | over distinct patch ids: the records are pairwise distinct, each id has a record, every record carries one of the ids, and all are for the same track |
| TrackMetrics.PerEcmRecordsPerPatch | src/AFT_additional_parameters.py:63-102 | on success, pairwise distinct records whose patch ids are exactly the table's patch ids, each for the smallest track |
| TrackMetrics.PositiveStepsMembers | src/AFT_additional_parameters.py:117 | `dx[dx > 0]` holds exactly the positive steps |
| TrackMetrics.NegativeMagnitudesMembers | src/AFT_additional_parameters.py:118 | `abs(dx[dx < 0])` holds exactly the magnitudes of the negative steps |
| TrackMetrics.PositiveStepsMultiset | src/AFT_additional_parameters.py:117 | `dx[dx > 0]` keeps each positive step value as often as the steps have it, and no other value |
| TrackMetrics.NegativeMagnitudesMultiset | src/AFT_additional_parameters.py:118 | `abs(dx[dx < 0])` keeps each negative step's magnitude as often as the steps have it, and no other value |
| TrackMetrics.PositiveStepsOrigin | src/AFT_additional_parameters.py:117 | value `k` of the positive part is the step at index `ix[k]`; these indices strictly increase and include every positive step, as the index labels pandas keeps do |
| TrackMetrics.NegativeMagnitudesOrigin | src/AFT_additional_parameters.py:118 | value `k` of the negative part is the magnitude of the step at index `ix[k]`; these indices strictly increase and include every negative step |
| TrackMetrics.SignSplitSum | src/AFT_additional_parameters.py:117-120 | the positive part minus the negative part sums to the sum of all steps |
| TrackMetrics.SignSplit | src/AFT_additional_parameters.py:117-120 | the positive and negative parts hold exactly the positive steps and the negative magnitudes, each as often as the steps have it, value `k` coming from the `k`-th step of that sign; zero and missing steps are in neither; their sums differ by the step sum |
| TrackMetrics.Contributions | src/AFT_additional_parameters.py:117-120 | one contribution per value, each `value / total_path_length` when the total is not 0 |
| TrackMetrics.PositiveContributions | src/AFT_additional_parameters.py:117-119 | contribution `k` of `dx[dx > 0] / total_path_length` is the `k`-th positive step, at its step index, over the path length |
| TrackMetrics.NegativeContributions | src/AFT_additional_parameters.py:118-120 | contribution `k` of `abs(dx[dx < 0]) / total_path_length` is the magnitude of the `k`-th negative step, at its step index, over the path length |
| TrackMetrics.PositivePathLength | src/AFT_additional_parameters.py:112-114 | a step that moves makes the path length positive |
| TrackMetrics.SignedStepPositiveLength | src/AFT_additional_parameters.py:112-117 | a non-zero x step, with x and y steps present at the same places, makes the path length positive |
| TrackMetrics.LineMetricsMeaning | src/AFT_additional_parameters.py:110-120 | the backward x steps sum to the x displacement; x-plus and x-minus are built from exactly the positive steps and the negative magnitudes, each kept as often as the steps have it; with any non-zero x step the path length is positive and the signed parts sum to the displacement |
| TrackMetrics.LineMetrics | src/AFT_additional_parameters.py:104-134 | the loop computes the per-track line records, one per distinct track id |
| TrackMetrics.FiberOrientation | src/AFT_additional_parameters.py:140-142 | succeeds iff no angle is NaN (otherwise the length mismatch raises `ValueError`), with one value per angle |
| TrackMetrics.FiberOrientationRange | src/AFT_additional_parameters.py:136-142 | the normalised angle is 0 at `theta = 0`, 1 at `abs(theta) = pi/2`, and in [0,1] for `abs(theta) <= pi/2` |
| IncludePath.NormalisePath | app/python_scripts/include_path.py:6-7 | on Windows every `\` becomes `/`: the length is kept, no backslash remains, and every other character is unchanged; elsewhere the path is used verbatim |
| IncludePath.ReplaceEmpty | app/python_scripts/include_path.py:15 | `s.replace("", n)` has length `len(s) + (len(s)+1)*len(n)` and starts and ends with `n` |
| IncludePath.ReplaceInFiles | app/python_scripts/include_path.py:9-17 | the loop creates and deletes no file |
| IncludePath.ReplaceKeywordInFiles | app/python_scripts/include_path.py:4-18 | the new file system is the in-order rewrite with the normalised path; the log holds, in list order, `Updated` for each existing file and `File not found` for each missing one |
| IncludePath.ReplaceInFilesEffect | app/python_scripts/include_path.py:9-17 | an existing file listed `c` times has the keyword replaced `c` times over, each pass seeing the previous pass's output |
| IncludePath.ListedOnce | app/python_scripts/include_path.py:13-17 | a file listed once gets its old content with every non-overlapping, left-to-right occurrence of the keyword replaced by the path |
| IncludePath.ListedTwice | app/python_scripts/include_path.py:9-17 | a file listed twice is rewritten twice, the second pass seeing the first pass's output |
| IncludePath.NotListedUnchanged | app/python_scripts/include_path.py:9 | a file not in the list is never modified |
| IncludePath.RepeatWithoutKeyword | app/python_scripts/include_path.py:15 | repeated passes over text without the keyword change nothing |
| IncludePath.NoKeywordNoChange | app/python_scripts/include_path.py:15-17 | if no file contains the keyword, every file's text is unchanged |
| Strings.ReplaceWithoutOccurrence | app/python_scripts/include_path.py:15 | `str.replace` leaves text without the keyword unchanged |
| Strings.FirstOccurrenceLeftmost | app/python_scripts/include_path.py:15 | the occurrence found is the leftmost one, and none is found only when there is none |
| Strings.ReplaceIsJoinOfSplit | app/python_scripts/include_path.py:15 | `s.replace(k, n) == n.join(s.split(k))`: leftmost, non-overlapping replacement |
| Strings.JoinSplitRoundTrip | app/python_scripts/include_path.py:15 | splitting on `k` and joining with `k` gives the text back |
| Strings.ReplaceBySelf | app/python_scripts/include_path.py:15 | replacing a keyword by itself changes nothing |
| Strings.ReplaceChar | app/python_scripts/include_path.py:7 | replacing a single character keeps the length and substitutes exactly that character |
| Strings.StrLeTotal | src/AFT_additional_parameters.py:62 | Python string order on `ECM_ID` compares any two strings |
| Strings.StrLeTransitive | src/AFT_additional_parameters.py:62 | Python string order is transitive |
| Strings.BasenameIsLastComponent | src/AFT_metrics.py:52 | the basename is the suffix after the last `/`, and contains no `/` |
| Strings.LastDot | src/segmentation.py:444 | the index found holds the last `.`; if none is found there is no `.` |
| Strings.SplitExtRoot | src/segmentation.py:444 | `splitext(b)[0]` is a prefix of `b`: cut at the last `.` when a character other than `.` precedes it, otherwise the whole of `b` |
| Strings.NatToString | src/AFT_metrics.py:77 | `str(n)` is a non-empty string of decimal digits |
| Strings.NatStringRoundTrip | src/AFT_metrics.py:77 | reading back the decimal rendering gives the number |
| Strings.NatToStringInjective | src/AFT_metrics.py:77 | distinct numbers render as distinct strings |
| Seqs.Filter | src/AFT_additional_parameters.py:10 | `df.loc[mask]` keeps only rows satisfying the mask, and every input row that does |
| Seqs.FilterMultiplicity | src/AFT_additional_parameters.py:10 | a selected value is kept as often as it occurs in the input, and no other value is kept, so duplicate rows survive |
| Seqs.Unique | src/AFT_additional_parameters.py:9 | `unique()` holds each value of the column exactly once, nothing else, and starts with the first value |
| Seqs.UniqueOnce | src/segmentation.py:542 | de-duplication keeps each distinct value of the input exactly once |
| Sorting.SortBy | src/AFT_additional_parameters.py:8 | the sort is a permutation of its input |
| Sorting.SortBySorts | src/AFT_additional_parameters.py:8 | under a total preorder the sort orders its input |
| Sorting.FilterSorted | src/AFT_additional_parameters.py:10 | a row selection of an ordered table is ordered |
| Grids.CountTrueZero | src/segmentation.py:98 | `np.count_nonzero(g) == 0` iff no cell is true |
| Grids.CountTrueAtMost | src/segmentation.py:518 | a mask patch has at most `size` set pixels |

## Left out

- Image I/O (`io.imread`), the first-frame selection with `single_frame`, `img_as_float`, the uint8 rescale and `enhance_contrast`: numeric array conversions outside the modelled bookkeeping.
- The threshold formulas `calcSigma`, `calcLowerThresh` and `calcUpperThresh`: floating-point `exp`/`sqrt`/`pi` formulas. The thresholds of each width are inputs (`WidthInput`).
- `hessian_matrix`/`hessian_matrix_eigvals`, `skeletonize`, skan's `Skeleton`/`summarize`/`path_coordinates`, `skeleton_to_nx` and `AFT.image_local_order`: foreign calls whose results are inputs or function parameters.
- The float32 cast of the response and every floating-point rounding: the model computes in exact reals.
- `segmentation_features`' intensity, FFD (`box_counting`), lacunarity and `curvature_mean` fields: floating-point statistics and foreign calls. The record keeps the image name, centre, HDM, endpoint and branch-point counts and their normalised values.
- `compute_curvature_from_skeleton`: it works on skan paths and supplies the curvature windows. The perpendicular-distance mean of a window is the parameter `perpMean`.
- The `arctan2` track angle, the `cos(delta)^2` alignment and the AFT order formula: the order formula is the parameter `order`. The step record keeps the displacement `dx, dy` instead of the angles.
- The pandas inner merge of the step records back into the track rows (src/AFT_metrics.py:155-156): the model returns the step records themselves. The frames of a track are already distinct, so the merge is one-to-one: it adds the spot columns to each step record and has no row for the track's last frame.
- `print` output of `AFT_AI_metric`, `AFT_order_parameter` and `calculate_fiber_orientation`: console messages. `include_path`'s messages are modelled as a log.
- The speed, velocity-correlation and displacement-autocorrelation fields of the track metrics: floating-point statistics; the record keeps steps, step lengths, mean step length, net and total distance and the consistency index.
- `calculate_fiber_orientation`'s per-`Condition` mean and median summaries: only printed.
- `calculate_velocity`, `plot_instantaneous_velocity_polar`, `intensity_calculation`, `density_calculation`, `data_saving_spots_only` and `src/AFT_figures.py`: plotting, CSV output and float binning.
- `include_path`'s `main` with its argument parsing, and UTF-8 decoding and encoding: command-line and encoding concerns. Files are modelled as their decoded text.
- IncludePath.NoKeywordNoChange: promises unchanged text, not unchanged bytes. Text-mode `open` (app/python_scripts/include_path.py:13,16) reads `\r\n` and `\r` as `\n` and writes `\n` as `os.linesep`. So without the keyword a listed CRLF file is still rewritten with LF endings on POSIX, and an LF file with CRLF endings on Windows. Newline translation is not modelled.
- Strings.Basename: POSIX path semantics only. On Windows, `os.path.basename` and `os.path.splitext` (src/AFT_metrics.py:52,178; src/segmentation.py:444) also split on `\` and after a drive letter; that case is not modelled.
- `os.name` is the parameter `isWindows`; `os.path.isfile` is membership in the file map.
- TrackMetrics.TrackDistances: states the consistency index as `ConsistencyIndex(net, total)`, whose own contract gives `ci * total == net`, rather than as the quotient itself.
- `sqrt` (the step length `sqrt(dx**2 + dy**2)`) is the parameter `norm`; lemmas assume only that it is non-negative and positive for a moving step (`NormLike`), not that it is the Euclidean length.
- pandas' default sort is not stable; the model sorts stably (rows with equal keys keep input order), and `drop_duplicates` keeps the first row of each frame in that order.
- The k-d tree's choice among equidistant patches is not documented; the model picks the lowest index.
- `AftMetrics.ValueAt`: a 3-D angle result given as a list of frames and one given as an array are one case (`Multi`); both read frame `t`.
- The negative `neighborhood_radius` case of `AFT_order_parameter`: the radius is a natural number.
- The triple-quoted, disabled code blocks are not part of this model.
- AftMetrics.AftOrderParameter: `Shaped` requires a 2-D angle grid with exactly `nrows * ncols` patch coordinates, as do `OrderValue`, `OrderRecordAt`, `ImageOrderRecords`, `ImageOrder` and `OrderValueOf`. Two source cases fall outside it.
  - `nrows, ncols = theta.shape` (src/AFT_metrics.py:190) raises `ValueError` for a multi-frame angle result, such as a stack read without `single_frame`; the model's 2-D grid cannot express that error path.
  - The loop runs over `range(len(x))` (src/AFT_metrics.py:193); with more coordinates than grid cells it would emit NaN records for the extra indices through the border test (:198). The model assumes the AFT call returns one coordinate pair per cell.
- AftMetrics.StepAt: reads the eccentricity by its own shape (`ValueAt(aft.ecc, …)`), whereas the source picks the branch from the angle result's type and `ndim` (src/AFT_metrics.py:107-118). The two agree when the angle and eccentricity results have one shape, as one AFT call returns them; mixed shapes are not modelled.
- TrackMetrics.LineMetricsOf: x-plus and x-minus are plain sequences; the pandas index label of each value is not part of the record. `SignedStepIndices` gives it, through `PositiveContributions` and `NegativeContributions`.
- SegmentationFeatures.Features: requires (through `Fitting`) every image and the given mask to have one common shape, as do `FeatureParts`, `FeatureRecords` and `FeaturesAsWritten`.
  - The source raises `IndexError` at src/segmentation.py:204 when a given mask's shape differs from an image's.
  - Without a mask, src/segmentation.py:461-466 reassigns `im_mask`, so every later image gets the first image's all-true mask; this fails the same way on an image of another shape.
  - The model covers equal shapes only, so `FeaturesAsWritten` substitutes the mask once before the loop.
- RidgeDetection.HessianRidgeResponse: requires a non-empty image (`h > 0 && w > 0`), as do `Response`, `Normalise`, `WidthMask`, `RidgeMaskForLineWidth`, `CombinedUpTo`, `CombineLineWidths`, `RunMultiscaleRidgeDetection` and their lemmas. `response.min()` on an empty image raises `ValueError` (src/segmentation.py:174); that error path is not modelled.
- SkeletonFilter.Curvature: requires `window >= 1`, as do `CurveValues` and its lemmas. With window 0 and a non-empty path, `seg[0]` on an empty slice raises `IndexError` (src/segmentation.py:303); that error path is not modelled.

## Findings

| source | as written | input that shows it | evidently intended | confidence | as-written member | corrected member |
|---|---|---|---|---|---|---|
| src/segmentation.py:461-462 | without an image mask, an all-true mask is built and passed to the ridge detector, which sets every true pixel to `-inf` as background | any call with `im_mask=None` whose skeletoniser maps an empty mask to an empty skeleton: the combined mask is empty and no record is produced | no image mask means no pixel is background, so the band test alone decides each pixel | not executed | SegmentationFeatures.MissingMaskYieldsNoRecords | SegmentationFeatures.NoMaskKeepsEveryPixel |
| src/AFT_additional_parameters.py:47 | the `return` is indented inside the per-track loop, so the function returns after the first track | a table with one row of track 1 and one row of track 2: one record instead of two | one record per track (the loop builds a list of `records`) | not executed | TrackMetrics.EarlyReturnDropsTracks | TrackMetrics.AllTrackMetricsOnePerTrack |
