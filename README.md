# Finger counting by background subtraction, modelled in Dafny

`fingerCount.py` counts the extended fingers of a hand held in a fixed
rectangle of the camera image. For its first iterations the loop only learns
the background of the rectangle. After that it compares every blurred sample
with the background. It keeps the largest contour of the thresholded
difference as the hand. It counts the valleys between fingers from the
convexity defects of the hand's simplified outline. When no valley qualifies,
the ratio of the hull area to the contour area decides between 0 and 1 fingers.

This project models the four pieces of sequential logic in that loop and
proves what they promise. OpenCV's image operations are inputs.

- `Background` (Background.dfy) holds the warm-up state:
  - The counter `frame` is kept doubled (`halfFrames`), starting at 0 and rising by 3. Warm-up lasts while it is below 140.
  - `Learned` gives the accumulator after any history of iterations: a copy of the first sample, then `0.5·acc + 0.5·sample` for every later warm-up sample.
  - Pixels are reals, and images are flat row-major sequences.
- `Segmentation` (Segmentation.dfy) is the per-pixel test. The accumulator is truncated to 8 bits, differenced with the sample and binarised: a difference strictly above 21 gives 255, anything else gives 0.
- `HandSelection` (HandSelection.dfy) is `max(contours, key=cv2.contourArea)`:
  - `None` when there are no contours.
  - Otherwise the earliest contour of largest area, because Python's `max` replaces its candidate only by a strictly larger item.
  - Areas are the doubled shoelace area (`Geometry.TwiceArea`), the integer that `cv2.contourArea` halves.
- `FingerCounting` (FingerCounting.dfy) is the defect heuristic:
  - `CountFingers` is the `for` loop that raises `finger_num` from 1, followed by the zero-finger rule. It is proved equal to the specification function `HandCount`.
  - The angle test is the exact real-number acos test. In real arithmetic `acos(c) <= π/2` holds exactly when `c >= 0`, so that test (`LawOfCosinesVerdict`) is the sign of the integer `s2² + s3² − s1²`. It is proved to agree with the dot-product test `(start − far)·(end − far) >= 0` that the model uses (`Classify`).
  - The ratio test `a_ratio < 16` is cross-multiplied into integers (`ClosedHand`) and proved equal to the real-valued formula of line 82 (`AreaRatio`).
- `Pipeline` (Pipeline.dfy) is the loop itself. The class `FingerCounter` holds `halfFrames`, `background` and a `halted` flag, and its method `Step` performs one iteration. The OpenCV steps are supplied as the functions of a `Vision` value: dilate/erode/findContours, and convexHull/approxPolyDP/convexityDefects.

The model represents four situations in which the script ends with an
exception. It does not invent recovery: each one is a `Crash` value, and `Step` then leaves the
counter alone, because `frame += 1.5` is never reached.

- A hand with zero contour area: division at line 82.
- `cv2.convexityDefects` returning `None`. Line 91 tests `def_area.shape[0] is not None`, which is always true for an array and fails with `AttributeError` on `None`. The test never guards anything.
- A defect index outside `average`: `IndexError` at lines 97-99.
- A defect whose far point coincides with its start or end point: `s2` or `s3` is 0, so line 106 divides by zero.

The script has no guard for a zero contour area (line 82) or for a
zero-length defect edge (line 106), so both crash. Ties between equal contour
areas go to the earliest contour (line 61).

A crash ends the loop. `Step` sets the `halted` field on a crash, and every
later `Step` requires that field to be false.

## Model

| member | source | states |
|---|---|---|
| `Geometry.SqDist` | fingerCount.py:103-105 | the squared side length is zero exactly when its two points coincide |
| `Geometry.LawOfCosines` | fingerCount.py:103-106 | `s2² + s3² − s1²` equals twice the dot product of the two edges at the far point |
| `Geometry.CosineArgumentInDomain` | fingerCount.py:106 | in exact arithmetic the acos argument lies in [−1, 1]: numerator² ≤ (2·s2·s3)² |
| `Geometry.AreaIndependentOfStart` | fingerCount.py:80-81 | the enclosed area of a closed contour does not depend on the point it starts from |
| `Background.WarmUpExactlyFirstIterations` | fingerCount.py:34 | the warm-up branch is taken on iteration n exactly when n < 47, i.e. on iterations 0..46 |
| `Background.WarmUpNeverResumes` | fingerCount.py:124 | once an iteration takes the detection branch, every later one does too |
| `Background.Learned` | fingerCount.py:34-43 | there is a background exactly when at least one iteration has run, and it has the image's size |
| `Background.FirstSampleCopied` | fingerCount.py:35-36 | the first sample is copied into the background unchanged |
| `Background.LearnedInRange` | fingerCount.py:40 | every background pixel stays within 0..255, so the 8-bit cast of line 45 is defined |
| `Background.LearnedFrozen` | fingerCount.py:34-43 | after 47 iterations the background no longer changes: it is what the first 47 samples made it |
| `Background.ConstantSceneLearned` | fingerCount.py:35-40 | feeding the same image on every iteration leaves the background equal to that image |
| `Segmentation.Trunc` | fingerCount.py:45 | `astype("uint8")` gives the integer part: b ≤ v < b + 1 |
| `Segmentation.AbsDiff` | fingerCount.py:45 | `cv2.absdiff` gives one of the two differences, never negative |
| `Segmentation.ForegroundPixel` | fingerCount.py:45-49 | a pixel is 255 exactly when truncated background and sample differ by more than 21, and 0 otherwise |
| `Segmentation.Segment` | fingerCount.py:45-49 | the threshold image has the sample's size and the foreground test at every pixel |
| `Segmentation.DifferenceOf22IsForeground` | fingerCount.py:49 | a difference of 22 either way is foreground |
| `Segmentation.DifferenceOf21IsClear` | fingerCount.py:49 | a difference of at most 21 is not foreground |
| `Segmentation.FractionIgnored` | fingerCount.py:45 | only the integer part of a background pixel affects the mask |
| `Segmentation.UniformScene` | fingerCount.py:45-49 | a uniform background b against a uniform sample: all 255 at b + 22, all 0 at b + 21 |
| `HandSelection.LargestIndex` | fingerCount.py:61 | the scan of `max` ends at a contour no other contour exceeds in area, and every earlier contour is strictly smaller |
| `HandSelection.SelectHand` | fingerCount.py:57-61 | None exactly when there are no contours, otherwise the earliest contour of largest area |
| `HandSelection.FirstLargestUnique` | fingerCount.py:61 | the earliest largest contour is unique, so the tie-break fully determines the hand |
| `HandSelection.SelectHandIsLargest` | fingerCount.py:60-61 | the selected outline is one of the contours and none has a larger area |
| `FingerCounting.Classify` | fingerCount.py:103-107 | the point-level decision never reports an indexing error |
| `FingerCounting.ZeroEdgeIsZeroSide` | fingerCount.py:103-106 | a defect is degenerate exactly when `s2` or `s3` is zero, the division by zero of line 106 |
| `FingerCounting.ValleyIsLawOfCosines` | fingerCount.py:103-107 | the dot-product test accepts a defect exactly when `s2`, `s3` > 0 and the law-of-cosines numerator is non-negative, i.e. the angle is at most 90° |
| `FingerCounting.DotTestIsLawOfCosines` | fingerCount.py:103-107 | the exact dot-product decision equals the exact real-number acos decision on every triangle |
| `FingerCounting.Examine` | fingerCount.py:96-99 | a defect row fails with `IndexError` exactly when one of its indices is outside `average` |
| `FingerCounting.ExamineIsLawOfCosines` | fingerCount.py:96-107 | a defect row within bounds is decided as lines 103-107 decide it |
| `FingerCounting.ValleyCount` | fingerCount.py:93-108 | at most one valley per defect row |
| `FingerCounting.HandCount` | fingerCount.py:80-113 | a displayed count needs defects and is at most one more than the number of defect rows |
| `FingerCounting.CountFingers` | fingerCount.py:80-113 | the loop over the defects, with `finger_num` starting at 1, gives `HandCount` exactly, crashes included |
| `FingerCounting.FailureIsFinal` | fingerCount.py:93-106 | an exception in the first k rows is the exception of the whole loop |
| `FingerCounting.FirstFailureSpec` | fingerCount.py:93-106 | the loop raises exactly when some row fails, and then at the earliest failing row |
| `FingerCounting.ValleyCountAppend` | fingerCount.py:93-108 | the valley count of two blocks of rows is the sum of their counts |
| `FingerCounting.ValleyCountOrderFree` | fingerCount.py:93-108 | the valley count does not depend on the order of the defect rows |
| `FingerCounting.HandCountDefined` | fingerCount.py:82-106 | a count is shown exactly when the contour area is non-zero, defects exist and no row fails |
| `FingerCounting.HandCountOrderFree` | fingerCount.py:89-113 | reordering the defect rows changes neither whether a count is shown nor the count |
| `FingerCounting.RatioTestExact` | fingerCount.py:82-110 | `((a_hull − a_contour)/a_contour)·100 < 16` holds exactly when `100·(hull − contour) < 16·contour` |
| `FingerCounting.HandCountBounds` | fingerCount.py:89-113 | every shown count lies in 0 .. 1 + number of defect rows |
| `FingerCounting.ValleysDecide` | fingerCount.py:109-113 | with at least one valley the count is 1 + valleys ≥ 2 and the hull area has no effect |
| `FingerCounting.NoValleyUsesRatio` | fingerCount.py:109-113 | with no valley the count is 0 when `a_ratio < 16` and 1 otherwise |
| `FingerCounting.ClosedFistCountsZero` | fingerCount.py:89-113 | one obtuse defect and a hull enclosing no extra area give 0 fingers |
| `FingerCounting.FourValleysCountFive` | fingerCount.py:89-113 | four defects with far-point angles of about 11° give 5 fingers, whatever the hull |
| `Pipeline.Detect` | fingerCount.py:43-113 | detection never reports warm-up, and reports no hand exactly when no contour was found |
| `Pipeline.FingerCounter.constructor` | fingerCount.py:8-14 | the loop starts with `frame` 0, no background, no history and not halted |
| `Pipeline.FingerCounter.Step` | fingerCount.py:34-124 | iterations 0..46 update the background (copy, then blend); later ones leave it unchanged and give the detection result; the counter advances by 1.5 unless the iteration crashed; a crash sets `halted`, and no pass runs after one |
| `Pipeline.StillSceneClearMask` | fingerCount.py:35-49 | after any number of iterations over a still scene the background equals the scene, and that scene then yields an empty mask |

## Left out

- Camera capture, resizing, mirroring, cropping, grey-scale conversion and Gaussian blur (lines 11-31) are I/O and library image processing. `Step` receives the blurred region of interest as its argument.
- Drawing, text overlay, window display, the key press that ends the loop and the teardown (lines 66, 114-135) are user interface.
- `cv2.dilate`, `cv2.erode` and `cv2.findContours` (lines 50-54) are the `contoursOf` function of a `Vision` value. `cv2.approxPolyDP`, `cv2.arcLength`, `cv2.convexHull` and `cv2.convexityDefects` (lines 72-87) are its `shapeOf` function. Their results are inputs, and the model does not check them for geometric consistency.
- Image dimensions are not modelled. An image is a flat sequence of pixels of one fixed size, and `Step` requires each sample to have that size. The script gets this from slicing the same rectangle of every frame.
- Floating point is not modelled:
  - `sqrt`, `acos` and the division of `a_ratio` are replaced by exact integer tests, proved equivalent to the real-number formulas.
  - The accumulator uses exact reals instead of 64-bit floats.
  - A `ValueError` from `acos` caused by float rounding cannot occur in exact arithmetic. `Geometry.CosineArgumentInDomain` shows the exact argument lies in [−1, 1]. For collinear points such as start (1,1), end (4,4) and far (0,0), the script's float argument can round above 1 and raise `ValueError`. The model does not represent that crash.
  - At exactly 90°, float rounding can make the script reject a defect the model counts. For start (0,1), end (1,0) and far (0,0), `sqrt(2)**2` rounds above 2, so `acos` can return slightly more than `math.pi/2`, and the script then does not count the defect. `Classify` counts it as a valley.
  - Near the threshold 16, the float `a_ratio` can also differ from the exact ratio that `ClosedHand` tests.
- The counter `frame` is a float that rises by 1.5. Every value it takes before it could lose precision is a multiple of 0.5, so it is modelled exactly in half-units.
- A `depth` field is kept in each defect row but, as in the script, it is never used.
- The unused imports (`numpy`, `sklearn.metrics.pairwise`) carry no logic.
