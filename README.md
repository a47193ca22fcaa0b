# Lane-line finding and tracking, modelled in Dafny

This project models the exact logic of a camera-based lane-line detector for road video
(CarND-Advanced-Lane-Lines). Each frame goes through these steps:

- It is converted to hue, lightness and saturation channels.
- It is thresholded to a white-or-yellow binary mask.
- It is warped to a top-down view.
- It is searched for the two lane lines with a sliding-window pixel search.
- Each line is fitted by a quadratic `x = a*y^2 + b*y + c`.

A long-lived `Lane` tracker gates each frame's fit by a lane-width sanity check. A frame that
passes is adopted or blended into a smoothed estimate. A frame that fails only ages the estimate.
The tracker also throttles the curvature and car-offset values that are shown on screen.

The modules follow the source files:

| file | module | source |
|---|---|---|
| `wrappers.dfy` | `Wrappers` | `Option` (the source's `None`) and `Result` (its exceptions) |
| `geometry.dfy` | `Geometry` | points, quadratics, the `0.8^age` blend, `vstack`/`flipud` shapes |
| `lane.dfy` | `LaneTracking` | `lane.py`: `is_sane`, `find_relative_car_position`, class `Lane` |
| `lane_finding.dfy` | `LaneFinding` | `lane_finding.py`: `find_lane_polynomials` |
| `main.dfy` | `Pipeline` | `main.py`: `get_out_file_name`, `process_image` |
| `thresholding.dfy` | `Thresholding` | `thresholding.py`: `boolean_to_binary`, the colour rule of `threshold` |
| `camera.dfy` | `Camera` | `camera.py`: `generate_grid`, the point lists of `get_perspective_transform` |

The tracker is written twice:

- `LaneState` holds the tracker's fields. The pure transitions `Initial`, `Step` (that is,
  `update`), `Insane` (that is, `update_insane`) and `Run` (a sequence of updates) act on it, and
  the multi-frame properties are lemmas about them.
- The class `Lane` has these fields, plus the constant image shape, and updates them in place, as
  the source does. Each method promises that its new `State()` is the pure transition applied to
  the old one.

`find_lane_polynomials` is built the same way. `Search` is the pure function of the mask, and
`FindLanePolynomials` does the source's work, and promises to return exactly `Search`:

- it zeroes the edge columns of a histogram array in place;
- it runs the nine-window loop, with invariants that tie it to the recursive `Slide`.

Floating-point values are Dafny `real`s: the blend weight `0.8` is `4/5`, and the constants are
exact.

Three calls into libraries are parameters instead of code:

- `np.polyfit` is a parameter `fit` that returns a coefficient triple.
- `find_curvature` is a parameter `curvature` that returns a radius or infinity.
- The colour conversion, undistortion and warp become inputs: the caller passes the H, L and S
  channels, or the warped mask.

Two details of the code are easy to misread, and the model follows the code in both:

- The display values are refreshed when the frame counter reads 0 **before** the increment.
  From a new lane, that is the 1st, 11th, 21st, ... accepted frame.
- The "lower" gap of `is_sane` is taken at index 0 of the samples, which is row 0, the top of the
  image.

## Model

| member | source | states |
|---|---|---|
| Geometry.PowInUnit | lane.py:72 | for 0 < b < 1 and n >= 1, b^n lies strictly in (0, 1) and b^(n+1) < b^n |
| Geometry.LerpBetween | lane.py:73-75 | for 0 < a < 1, `a*old + (1-a)*new` lies between old and new, and differs from both unless they are equal |
| LaneTracking.IsSane | lane.py:3-6 | `is_sane`: the gap at index 0 is in [290, 800] and the gap at the last index is in [490, 700]; `SanityBoundaries` shows that every bound is inclusive |
| LaneTracking.SanityBoundaries | lane.py:3-6 | all four bounds of the gate are inclusive: a lower gap of 289 or 801, or an upper gap of 489 or 701, is rejected; gaps of 290 and 490 together, and of 800 and 700 together, are accepted |
| LaneTracking.RelativeCarPosition | lane.py:34-35 | the offset is zero iff the lane centre is the image centre, positive iff the image centre lies to its right, negative iff to its left |
| LaneTracking.LanePoints | lane.py:67-69 | the polygon has 2N points: the left samples in order, then the right samples in reverse order, each paired with its row |
| LaneTracking.BlendWeight | lane.py:72 | the weight `0.8**age` as (4/5)^age; `BlendWeightDecreasing` shows it lies in (0, 1) and strictly decreases with age |
| LaneTracking.BlendWeightDecreasing | lane.py:72 | for age >= 1, `0.8^age` is strictly in (0, 1) and strictly decreases with age |
| LaneTracking.Initial | lane.py:41-57 | a new lane has age 50 and frame 0, every estimate is absent, and it is neither valid nor up to date |
| LaneTracking.NextFrame | lane.py:87 | the frame counter stays in [0, 10) |
| LaneTracking.Step | lane.py:65-90 | an update keeps the invariant: 1 <= age <= 50, 0 <= frame < 10, and either all estimates are present or the lane is pristine; it also keeps the point-array shape and the image centre |
| LaneTracking.Insane | lane.py:92-94 | `update_insane` as a transition; `InsaneUpdateOnlyAges` and `RunInsane` show that it only raises age, capped at 50 |
| LaneTracking.Refit | lane.py:67-79 | the geometry half of a sane update; `StaleLaneAdopts` shows that a stale lane adopts the incoming values, and `ValidLaneBlends` shows that a valid lane blends them |
| LaneTracking.Remeasure | lane.py:81-88 | the measurement half of a sane update; `SaneUpdateEffects` states its centre, offset, radius, age, counter and throttled display values |
| LaneTracking.SaneUpdate | lane.py:66-88 | the sane branch of `update`, `Remeasure` after `Refit`; `Step` shows that it keeps the invariant, and `SaneUpdateEffects` states its effects |
| LaneTracking.InsaneUpdateOnlyAges | lane.py:89-94 | an update whose samples fail the gate is exactly `update_insane`: age becomes min(age+1, 50), and the frame, the geometry and the display fields are unchanged |
| LaneTracking.SaneUpdateEffects | lane.py:81-88 | a sane update gives age 1 (up to date and valid) and frame (frame+1) mod 10; the centre is the mean of the two last raw samples, the offset is derived from it, and the radius is the curvature of the raw samples; the display copies are refreshed iff frame was 0 |
| LaneTracking.StaleLaneAdopts | lane.py:76-79 | a stale lane adopts the incoming points and both fits unchanged |
| LaneTracking.ValidLaneBlends | lane.py:71-75 | a valid lane stores `a*old + (1-a)*new` with a = 0.8^age in (0, 1), and every point coordinate and coefficient lies between its old and new value |
| LaneTracking.PolyBlendBetween | lane.py:74-75 | every coefficient of a blended quadratic lies between the old and new coefficient |
| LaneTracking.Run | lane.py:65-94 | any sequence of updates keeps the invariant, the point-array shape and the image centre |
| LaneTracking.RunInsane | lane.py:92-94 | N rejected frames in a row give age min(age+N, 50), and nothing else changes; from age 1 that is min(1+N, 50) |
| LaneTracking.FrameAfterIsSum | lane.py:87 | k accepted frames advance the counter to (frame + k) mod 10 |
| LaneTracking.RunSaneFrame | lane.py:87-88 | after N >= 1 accepted frames the lane is up to date and the counter has advanced N times |
| LaneTracking.SaneCountAllSane | lane.py:66 | in a run where every frame passes the gate, every frame is counted as accepted |
| LaneTracking.RunFrame | lane.py:87-94 | in any run, accepted and rejected frames mixed, the counter advances once per accepted frame and never on a rejected one |
| LaneTracking.DisplayThrottled | lane.py:84-94 | in any run, frame j overwrites the display radius and offset with its fresh values iff it passes the gate and the counter, advanced once per earlier accepted frame, reads 0; every other frame, rejected or not, keeps them |
| LaneTracking.Lane.constructor | lane.py:41-57 | the new object keeps the image shape, and its state is `Initial`: age 50, frame 0, not valid, not up to date |
| LaneTracking.Lane.IsUpToDate | lane.py:59-60 | `is_up_to_date` is age == 1, which implies `is_valid` |
| LaneTracking.Lane.IsValid | lane.py:62-63 | `is_valid` is age < 50; a valid lane has its points and both display values |
| LaneTracking.Lane.Update | lane.py:65-90 | the new field values are `Step` from the old ones, and the invariant is kept |
| LaneTracking.Lane.UpdateSane | lane.py:66-88 | the sane branch: the new field values are the sane transition from the old ones, and the invariant is kept |
| LaneTracking.Lane.RefitPolys | lane.py:67-79 | points and fits are adopted when the lane was stale and blended when it was valid; no other field changes |
| LaneTracking.Lane.Measure | lane.py:81-88 | radius, centre and offset are recomputed, the display copies are refreshed when frame was 0, the counter is advanced and age is set to 1 |
| LaneTracking.Lane.UpdateInsane | lane.py:92-94 | age becomes min(age+1, 50), and no other field changes |
| LaneFinding.ColumnCount | lane_finding.py:10 | a column count is at most the number of rows counted, and is zero iff no counted cell of the column is set |
| LaneFinding.Histogram | lane_finding.py:10 | the column sums of the bottom half, one entry per column; `HistogramCounts` bounds each entry and shows it is zero iff the column is empty there |
| LaneFinding.HistogramCounts | lane_finding.py:10 | the histogram has one entry per column; each entry is at most the height of the bottom half, and is zero iff no cell at a row >= h div 2 is set |
| LaneFinding.ZeroedEdges | lane_finding.py:13-14 | column c is 0 when c < 100 or c >= w-100, and otherwise keeps its count |
| LaneFinding.ZeroEdges | lane_finding.py:13-14 | the in-place zeroing leaves the array equal to `ZeroedEdges` of its old contents |
| LaneFinding.EdgesCleared | lane_finding.py:13-14 | after zeroing, columns [0, 100) and [w-100, w) are 0, and the columns in between are unchanged |
| LaneFinding.ArgMax | lane_finding.py:28-29 | `np.argmax`: an index of a largest entry, and the first such index |
| LaneFinding.LeftBase | lane_finding.py:27-28 | the left seed lies in [0, w div 2), is maximal in that half, and is the first maximal column |
| LaneFinding.RightBase | lane_finding.py:27-29 | the right seed lies in [w div 2, w), is maximal in that half, and is the first maximal column |
| LaneFinding.RowNonzero | lane_finding.py:36-38 | exactly the set cells of the row, from column x on |
| LaneFinding.Nonzero | lane_finding.py:36-38 | a pixel is listed iff it is a set cell at row >= y |
| LaneFinding.RowsIsProduct | lane_finding.py:53-54 | k bands span k * wh rows |
| LaneFinding.BandsOrdered | lane_finding.py:51-54 | band 0 ends at row h; each band is wh rows high; a later band lies entirely above an earlier one, so no pixel is in both |
| LaneFinding.Select | lane_finding.py:66-69 | every selected index is in range, and its pixel lies inside the window's box |
| LaneFinding.SelectComplete | lane_finding.py:66-69 | every pixel inside the box is selected |
| LaneFinding.SelectAscending | lane_finding.py:66-69 | the selected indices strictly ascend |
| LaneFinding.MeanX | lane_finding.py:76-78 | `np.int(np.mean(nonzerox[inds]))` as floor division of the sum; `MeanInRange` shows the mean of pixels in [lo, hi) lies in [lo, hi) |
| LaneFinding.MeanInRange | lane_finding.py:75-78 | the truncated mean x of pixels in [lo, hi) lies in [lo, hi) |
| LaneFinding.Recenter | lane_finding.py:75-78 | the next x: the mean when more than 50 pixels were collected, the current x otherwise; `RecenterStaysInWindow` shows the new x stays in the window |
| LaneFinding.RecenterStaysInWindow | lane_finding.py:75-78 | the x position changes only after a window with more than 50 pixels, and the new x stays within the window's column range |
| LaneFinding.Slide | lane_finding.py:51-78 | the search of one side through k windows yields one index list per window; `SlideAt`, `WindowCollects` and `RecenterStaysInWindow` state what each list and each step is |
| LaneFinding.SlideAt | lane_finding.py:51-72 | list j of the loop is the selection of window j, centred where the search stood after j windows |
| LaneFinding.WindowCollects | lane_finding.py:66-72 | window j's list holds exactly the set pixels inside its box |
| LaneFinding.Concat | lane_finding.py:81-82 | `np.concatenate` of the window lists; `ConcatMember` shows that an index is in the result iff it is in one of the lists |
| LaneFinding.ConcatMember | lane_finding.py:81-82 | an index is in the concatenation iff it is in one of the window lists |
| LaneFinding.CollectedSound | lane_finding.py:66-82 | each index of a side's concatenated list is a set pixel and lies inside one of that side's window boxes |
| LaneFinding.CollectedDistinct | lane_finding.py:66-82 | no index appears twice in one side's concatenated list |
| LaneFinding.IndicesInRange | lane_finding.py:81-88 | every concatenated index is a valid index of the nonzero-pixel arrays |
| LaneFinding.SlideWindows | lane_finding.py:51-82 | the window loop returns, for each side, the concatenation of the window lists of the recursive search |
| LaneFinding.PlotY | lane_finding.py:97 | `np.linspace(0, h-1, 30)`; `PlotYRows` shows there are 30 rows from 0 to h-1, strictly ascending when h >= 2 |
| LaneFinding.PlotYRows | lane_finding.py:97 | there are 30 sample rows, from 0 to h-1, strictly ascending when h >= 2 |
| LaneFinding.SideIndices | lane_finding.py:27-82 | the concatenated indices one side collects, seeded at its half's argmax; every index is a valid index of the nonzero-pixel list; `CollectedSound` and `CollectedDistinct` state what they hold |
| LaneFinding.Search | lane_finding.py:7-120 | `find_lane_polynomials` as a function of the mask; `SearchOutcome`, `SearchSuccess` and `ZeroMaskFails` state its outcomes |
| LaneFinding.SearchOutcome | lane_finding.py:28-92 | the search fails on the empty left half iff w < 2, and with "No good data" iff a side collected no pixel; otherwise it succeeds |
| LaneFinding.SearchSuccess | lane_finding.py:85-120 | on success there are 30 rows from 0 to h-1, each x sample is the fitted quadratic at its row, and each fit is `fit` applied to the (y, x) of that side's collected set pixels |
| LaneFinding.ZeroMaskFails | lane_finding.py:81-92 | a mask at least 2 columns wide with no set cell makes the search fail with "No good data" |
| LaneFinding.SeedHistogramArray | lane_finding.py:10-14 | the array histogram, zeroed in place, equals the zeroed histogram of the mask |
| LaneFinding.FindLanePolynomials | lane_finding.py:7-120 | the imperative search returns exactly `Search` of the mask |
| Pipeline.Split | main.py:97 | `file_name.split('.')`: at least one piece; `SplitDotFree` and `JoinSplit` show the pieces are dot-free and join back to the name |
| Pipeline.Join | main.py:99 | `'.'.join(parts)`; `JoinSplit` shows it undoes `Split` |
| Pipeline.OutFileName | main.py:96-99 | `get_out_file_name`; `OutFileNameInserts` and `OutFileNameShape` state the result |
| Pipeline.FirstDot | main.py:97 | the first dot's index, or the length when there is no dot |
| Pipeline.SplitDotFree | main.py:97 | no piece of `split('.')` contains a dot |
| Pipeline.JoinSplit | main.py:97-99 | `'.'.join(s.split('.')) == s` |
| Pipeline.OutFileNameInserts | main.py:96-99 | the result is the text before the first dot, then `_out`, then the rest from the first dot on |
| Pipeline.OutFileNameShape | main.py:96-99 | the result is 4 characters longer than the name and keeps everything from the first dot on; with no dot it is name + `_out` |
| Pipeline.Dispatch | main.py:85-91 | success goes to `update` and failure to `update_insane`; the tracker invariant and the shape of 30 samples are kept |
| Pipeline.FailureOnlyAges | main.py:89-91 | a failed search ages the lane by one step, capped at 50, and changes nothing else |
| Pipeline.SaneSuccessRefreshes | main.py:86-88 | a successful, sane search leaves the lane up to date, centred on the last raw samples |
| Pipeline.ZeroMaskAges | main.py:85-91 | a mask at least 2 columns wide with no set cell ages the lane by exactly one step, capped at 50, and changes nothing else |
| Pipeline.SearchShaped | main.py:86-88 | every successful search hands `update` 30 samples per side |
| Pipeline.ProcessImage | main.py:74-93 | a lane is created when none is passed, with the mask's height and width as the frame's shape; the lane's new state is `Dispatch` of the search outcome, applied to its old state or to `Initial` |
| Thresholding.IsYellow | thresholding.py:18 | yellow is 20 <= H <= 40 and S >= 30, all bounds inclusive; `Threshold` shows the returned mask follows it |
| Thresholding.IsWhite | thresholding.py:19 | white is L >= 200; `Threshold` shows the white mask is 1 exactly there |
| Thresholding.Selected | thresholding.py:22 | the rule of the returned mask, white or yellow; `WhiteIsSelected` and `Threshold` state it |
| Thresholding.WhiteIsSelected | thresholding.py:18-22 | every white pixel is selected; a pixel that is not light enough and not in the yellow band is not |
| Thresholding.BooleanToBinary | thresholding.py:6-9 | a fresh array of the mask's shape: 1 exactly where the mask is true, 0 elsewhere |
| Thresholding.Threshold | thresholding.py:11-30 | the returned mask is 1 iff L >= 200 or (20 <= H <= 40 and S >= 30); the white mask is 1 iff L >= 200; every white pixel is 1 in the returned mask |
| Camera.RowIndex | camera.py:11-13 | for x < nx, row y*nx + x reads back as column x of line y |
| Camera.RowsDistinct | camera.py:11-13 | different rows hold different (x, y) corners |
| Camera.SetRow | camera.py:13 | one row is set to (x, y, 0), and every other cell is unchanged |
| Camera.GenerateGrid | camera.py:9-14 | a fresh (ny*nx) x 3 array whose row i is (i mod nx, i div nx, 0) |
| Camera.SourcePoints | camera.py:58-61 | four points: top left and top right at row h/2+100, symmetric about w/2 and 120 apart; both bottom points at row h |
| Camera.TargetPoints | camera.py:63-67 | the axis-aligned rectangle with x in {w/4, 3w/4} and y in {0, h}, in the order of the source points |
| Camera.PointsInImage | camera.py:55-67 | for an image of at least 360 x 200, every source and target point lies in the image, and the rectangle is centred on w/2 |
| Camera.SameOrientation | camera.py:58-67 | for an image wider than 75 and taller than 200, the trapezoid's top is narrower than its bottom and lies above it, and corresponding corners are in the same order, so the warp does not mirror |

## Left out

- `np.polyfit` (lane_finding.py:93-94) is a parameter `fit`. The least-squares numerics are not
  modelled; the model only records which coordinates are fitted.
- `find_curvature` (lane.py:12-32) is a parameter `curvature`. Its world-unit refit and the
  `**1.5` radius formula are floating-point library work.
- Floating-point rounding is not modelled. All values are exact reals. This covers the float32
  of the grid and point lists, `np.linspace`, and the blend.
- The colour conversion `cv2.cvtColor` is not modelled; `Threshold` takes the H, L, S channels.
- The camera calibration, undistortion, warping and pickle I/O (camera.py:17-52, camera.py:69-108)
  are not modelled. `ProcessImage` takes the warped mask as input.
- Rendering (`lane_drawing.py`) is not modelled. `ProcessImage` returns the updated lane rather
  than the drawn frame. The renderer's one guard, drawing only for a valid lane, is `IsValid`.
- The visualisation branches gated on `config` (histogram plot, window rectangles, debug
  windows, `exit()`), image and video I/O, the demos, and the `print` of the caught exception are
  not modelled.
- `recycle_bin/thresholding2.py` is dead code and is not part of this model.
- LaneTracking.Lane.Update: both `Update` and `Step` require that the samples are non-empty, that
  the left, right and row samples have one common length, and, for a valid lane, that the stored
  polygon has twice that many points. The source's `update` does not demand this. Empty samples
  make `is_sane` raise IndexError (lane.py:4). On a valid lane, sane samples of another length make
  `vstack` or the blend raise ValueError (lane.py:67, lane.py:73). Insane samples of any length
  only age the lane (lane.py:89-90). In `process_image`, both errors would become one
  `update_insane` (main.py:89-91). None of these cases is modelled. The only caller always passes
  30 samples per side, as `Pipeline.SearchShaped` shows.
- Pipeline.ProcessImage: only the two failures `find_lane_polynomials` can raise are modelled.
  These are the empty left half and "No good data". An exception from any other library call in
  the `try` block is not modelled.
- LaneTracking.DisplayThrottled: the counter is stated through `FrameAfter`, one `NextFrame` per
  accepted frame. `FrameAfterIsSum` then shows that this is (frame + k) mod 10, where k is the
  number of accepted frames before frame j (`SaneCount`).
