# Tallyho calibration model

Tallyho measures objects seen by a camera. Each frame, it finds the contours of the objects and
fits a rotated bounding box to each. It measures the box's height (dA) and width (dB) in pixels
between opposite edge midpoints. It then converts both to real units by dividing by a
pixels-per-metric factor. That factor is calibrated from a reference object of known width.

This project models the part of `TallyhoApp` that is logic rather than library calls:

- the three calibration fields `pixelsPerMetric`, `updatePPM` and `calibrationWidth`;
- the "Set Calibration" handler `calibrate`;
- the state and arithmetic skeleton of `drawOverlay`;
- the `midpoint` helper.

Modules:

- `Options` (options.dfy): the `Option` type that stands for Python's `None`-or-value.
- `Geometry` (geometry.dfy): points, `Midpoint`, the four edge midpoints of an ordered box, and
  why dA and dB are the box's height and width.
- `Calibration` (calibration.dfy): the specification as pure functions over `AppState`, the
  three fields as a value:
  - `CalibrateSpec`: one button press;
  - `PendingClear`: the first step of `drawOverlay`;
  - `Scan`: its contour loop, from position `i`;
  - `Frame`: one whole `drawOverlay` call;
  - `Run`: any interleaving of presses and frames.
  The lemmas about them are in the same module.
- `Tallyho` (tallyho_app.dfy): the class `TallyhoApp` with the three fields.
  - The constructor sets the initial values.
  - `Calibrate` models the button handler.
  - `ProcessFrame` models `drawOverlay`. Its two steps are the methods `ConsumePendingRequest`
    and `MeasureContours`, and the second holds the `for c in cnts` loop with its invariants.
  - Each method is proved to change the fields exactly as its specification function says.
    `Calibrate` and `ProcessFrame` also keep the class invariant `Valid()`, and `ProcessFrame`
    relies on it to rule out a division by a missing width or a zero factor.

Inputs in place of the vision library:

- A frame is the sequence of its contours, already sorted left to right.
- Each contour is a `Contour(area, dA, dB)` record.
- A button press is the entry text together with `parsed`, which is what Python's `float` makes
  of that text (`None` when `float` raises).
- Arithmetic is on exact `real`s.

How the code behaves at its edges, as the model states it:

- A pending calibration request is consumed only on a frame with more than one contour, of any
  area (tallyhoapp.py:87-91). On frames with a single contour the request simply waits
  (`RequestSurvivesSingleContourFrames`).
- A contour below area 100 is never measured (tallyhoapp.py:95-96), but it does count toward
  the "more than one contour" of line 87. So a small contour next to a measured one can trigger
  the pending clear that the measured one alone would not (`SmallContourCountsTowardClear`).
- A request pending while no factor is in force is not consumed by a one-contour frame, even
  though that frame computes the factor (tallyhoapp.py:143-144). The flag stays raised, and the
  next frame with more than one contour clears the factor and computes it again from its own
  first measured contour (`ResolvedAgainWhileRequestPending`, `ResolvedAgainExample`). In every
  other case a frame that computes the factor resolves it once for good (`ResolvedOnce`).
- The code does not guard the divisions at tallyhoapp.py:144 and 147-148. A `None` width raises
  `TypeError` and a zero divisor raises `ZeroDivisionError`. `ProcessFrame` requires the class
  invariant, which rules out a missing width and a zero factor. It also requires that a frame
  which computes the factor has a non-zero width and a non-zero dB for its first measured
  contour. Under the invariant this is exactly the condition under which these divisions raise
  nothing (`FrameDefinedUnderInv`).
- The code accepts any width that `float` parses, including negative ones. Only zero fails, and
  only when a frame divides by it. So the model demands a non-zero width, not a positive one,
  and only on frames that compute the factor.

## Model

| member | source | states |
|---|---|---|
| `Tallyho.TallyhoApp.constructor` | tallyhoapp.py:18-20 | The app starts with `pixelsPerMetric` = 40, `updatePPM` false and no calibration width, and the invariant holds. |
| `Calibration.InitialSatisfiesInv` | tallyhoapp.py:18-20 | The initial state is (40, false, None) and satisfies the invariant: no factor or a pending request implies a stored width, and the factor in force is never zero. |
| `Geometry.Midpoint` | tallyhoapp.py:67-68 | The midpoint is equally far from both points in each coordinate, and each coordinate lies between theirs. |
| `Geometry.MidpointSymmetric` | tallyhoapp.py:67-68 | `midpoint(a, b) == midpoint(b, a)`. |
| `Geometry.MidpointUnique` | tallyhoapp.py:67-68 | Any point equally far from both ends in each coordinate is the midpoint, so the midpoint is the component-wise average. |
| `Geometry.ParallelogramMidlines` | tallyhoapp.py:117-124 | For a box whose opposite edges are parallel and equal, the left-right midpoint segment (dB) is as long as the top edge. The top-bottom segment (dA) is as long as the left edge. |
| `Geometry.UprightBoxDistances` | tallyhoapp.py:117-138 | For an upright w-by-h box, the Euclidean distances between opposite edge midpoints are exactly dA = h and dB = w. |
| `Tallyho.TallyhoApp.Calibrate` | tallyhoapp.py:164-172 | Empty text, or text `float` rejects, changes no field. Parsed non-empty text stores the width and raises the flag. `pixelsPerMetric` is never touched, and the invariant is kept. |
| `Calibration.CalibrateEffect` | tallyhoapp.py:164-172 | A press never changes `pixelsPerMetric`. It leaves the state as it was exactly when the text is empty, does not parse, or repeats a pending width. Otherwise it stores the width and sets the flag, and it reports a width set only in that case. |
| `Calibration.CalibratePreservesInv` | tallyhoapp.py:164-172 | A press keeps the invariant: no factor or a pending request implies a stored width, and no factor in force is zero. |
| `Calibration.Qualifying` | tallyhoapp.py:93-96 | The measured contours are exactly the contours of `cnts` whose area is not below 100, and there are no more of them than contours. |
| `Calibration.QualifyingAppend` | tallyhoapp.py:93-96 | Filtering by area commutes with concatenating frames' contour sequences. |
| `Calibration.DivisionsDefinedIff` | tallyhoapp.py:143-148 | The loop raises no exception if and only if one of three holds. Nothing is measured; or the factor in force is non-zero; or there is no factor and both the width and the first measured contour's dB are non-zero. |
| `Calibration.ScanFactor` | tallyhoapp.py:143-144 | A factor in force when the loop starts is kept to its end. If none is, it is computed once, as dB of the first measured contour over the width. If no contour is measured, it stays unset. |
| `Calibration.ScanMeasurements` | tallyhoapp.py:93-148 | The loop makes one measurement per measured contour, in order. Each is (dA / p, dB / p) for that contour, where p is the single non-zero factor left at the end of the loop. |
| `Calibration.ScanDependsOnlyOnQualifying` | tallyhoapp.py:93-96 | Two frames with the same measured contours end with the same factor and the same measurements. |
| `Calibration.SmallContoursIgnored` | tallyhoapp.py:95-96 | In the contour loop, with a given factor in force, inserting a contour of area below 100 anywhere changes neither the factor nor the measurements. (At frame level such a contour still counts toward the clear; see `SmallContourCountsTowardClear`.) |
| `Calibration.SmallContourCountsTowardClear` | tallyhoapp.py:87-96 | With a request pending and a factor in force, a frame of one measured contour leaves the state unchanged. The same contour next to one of area below 100 lowers the flag and computes the factor anew from it. |
| `Tallyho.TallyhoApp.ConsumePendingRequest` | tallyhoapp.py:87-91 | With more than one contour and the flag set, the factor becomes unset and the flag is lowered. Otherwise nothing changes. |
| `Tallyho.TallyhoApp.MeasureContours` | tallyhoapp.py:93-148 | The loop changes only `pixelsPerMetric`, and it ends with the factor and the measurements that `Scan` gives from position 0. |
| `Tallyho.TallyhoApp.ProcessFrame` | tallyhoapp.py:85-148 | Given the invariant, and a non-zero width and dB wherever the frame computes the factor, no division fails. The new fields and the measurements are those of `Frame` on the old fields. There is one measurement per qualifying contour, each the contour's dA and dB over the one non-zero factor in force at the end. The invariant is kept. |
| `Calibration.FrameDefinedUnderInv` | tallyhoapp.py:87-148 | Under the invariant, a frame's divisions are all defined if and only if, when the frame computes the factor, the width and its first measured contour's dB are non-zero. |
| `Calibration.FrameEffect` | tallyhoapp.py:87-144 | A frame keeps the width. It lowers the flag exactly when the flag was set and it has more than one contour. When no factor is in force after that clear and a contour is measured, the factor becomes the first measured contour's dB over the (non-zero) width, whether the clear happened or the factor was unset already. Otherwise the factor is the one left by the clear. With no clear and a factor set, the whole state is unchanged. |
| `Calibration.RequestSurvivesSingleContourFrames` | tallyhoapp.py:87-91 | On a frame with at most one contour, a pending request and a set factor are left as they are. |
| `Calibration.ResolvedOnce` | tallyhoapp.py:87-144 | A frame that computes the factor and leaves no request pending resolves the factor there. This covers a request consumed on that frame and an unset factor with no request. The next frame, whatever its contours, changes nothing. |
| `Calibration.ResolvedAgainWhileRequestPending` | tallyhoapp.py:87-144 | With a request pending and no factor, a one-contour frame computes the factor from its contour but keeps the flag raised. The next frame with more than one contour and a measured one clears it and computes it again from that frame's first measured contour. |
| `Calibration.ResolvedAgainExample` | tallyhoapp.py:87-148 | From (None, true, 2), a frame whose one contour has dB 10 gives (5, true, 2). A following two-contour frame whose first contour has dB 12 gives (6, false, 2). |
| `Calibration.CalibratingContourMeasuresWidth` | tallyhoapp.py:143-148 | When a frame computes the factor, the contour it was computed from measures exactly the calibration width (dimB == calibrationWidth). |
| `Calibration.FramePreservesInv` | tallyhoapp.py:87-148 | A frame keeps the invariant. The factor is only unset by the clear, which needs the flag, and the flag is only raised together with a stored width. A computed factor is a quotient of non-zero numbers, so it is never zero. |
| `Calibration.InvAlongEveryRun` | tallyhoapp.py:87-172 | Along any sequence of presses and frames from a state satisfying the invariant, `pixelsPerMetric == None` implies that a calibration width is stored. |

## Left out

- tallyho.py, the bootstrap that starts the video stream, waits and enters the UI main loop: I/O and process start-up.
- The tkinter widgets, `panel` updates and `onClose` (tallyhoapp.py:22-42, 56-62, 158-162): UI and process lifecycle.
- The `videoLoop` capture thread, `stopEvent`, and the sharing of the frame and the calibration fields between that thread and the UI thread: concurrency. The model runs presses and frames one after another (`Run`).
- The exceptions that escape `drawOverlay` would end the capture thread, since only `RuntimeError` is caught (tallyhoapp.py:64-65). The model does not follow them. `ProcessFrame` requires the inputs under which none is raised, and `MeasureContours` requires `DivisionsDefined`.
- The OpenCV pipeline (colour conversion, blur, Canny edges, dilate, erode, `findContours`, `contourArea`, `minAreaRect`, `boxPoints`), the drawing calls and the final `addWeighted` blend: foreign image-processing code. Their results are the inputs `area`, `dA` and `dB`.
- `perspective.order_points` and `contours.sort_contours` (tallyhoapp.py:88, 107): library code. The contours arrive sorted, and `Geometry.Box` assumes its corners already ordered.
- `dist.euclidean` (tallyhoapp.py:137-138): it takes a floating-point square root. `dA` and `dB` are inputs, and `Geometry.IsDistance` states the relation without a root.
- Python's `float` parsing of the entry text (tallyhoapp.py:168): a foreign parser. Its result is the `parsed` argument. NaN and infinite widths are not representable as `real` and are not modelled.
- Floating-point rounding: the model uses exact reals. So `CalibratingContourMeasuresWidth` holds exactly, while the program's `dB / (dB / w)` may differ from `w` in the last bits.
- The `int` cast of the box corners (tallyhoapp.py:101) and of the drawing coordinates, the `print` logging and the `"{:.4f}ft"` label formatting.
