# MLFaceLib face detection and Fisherface recognition, modelled in Dafny

This project models the computational core of MLFaceLib, a C# face
detection and recognition library:

- **Summed-area tables** (`IntegralHelper.cs`). These are the standard integral image and the 45° "rotated" table, with rectangle sums read from four table corners.
- **Two Haar cascade loaders and their evaluators.**
  - `HaarCascadeClassifier.cs` reads the OpenCV schema, where stages hold weak classifiers and features sit in a shared `<features>` list.
  - `HaarCascade.cs` reads the older `<cascade>`/`<size>`/`<trees>` schema.
  - Each is modelled as a walk over an abstract XML element tree, together with the scoring of one detection window: feature value, weak-classifier vote, stage sum and stage threshold.
- **Two sliding-window detectors.**
  - `HaarCascadeDetection/HaarObjectDetector.cs` runs a loaded cascade. Its step is `max(2, w/10)` and its window grows by a scale factor.
  - `MLFaceLib/HaarObjectDetector.cs` is a demonstration detector. Its one-stage, one-feature cascade is fixed, and its step is fixed at 4.
- **The skin-colour face detector** (`FaceDetector.cs`). Its pipeline is:
  1. a YCrCb skin mask;
  2. a morphological closing (dilations, then erosions);
  3. hole filling by breadth-first flood;
  4. 8-connected components;
  5. one bounding box per component, widened by a 10 % margin, clamped to the image and kept only if its size and aspect ratio pass.
- **The structural part of the Fisherface recognizer** (`FisherFaces.cs`). This covers:
  - the matrix helpers: multiply, matrix–vector multiply, transpose, identity, normalise and Gauss–Jordan inverse;
  - training: input checks, mean image, centring, the component-count failures of the PCA and LDA steps, projection of the training images and the label copy;
  - recognition: the size check, projection and first-minimum nearest-neighbour search.

Code that fills arrays in loops is modelled by methods over `array2`, or by a
class with fields where the source updates an object (`FisherFaceRecognizer`).
Each method is proved against a specification function on values. The
properties the library relies on are then lemmas about those functions. Some
examples:

- the table holds block sums;
- a detection is exactly a visited window that the cascade accepts, and detections come in scan order;
- a flood finds exactly a connected component;
- a training image is recognised as the label of a training image at distance zero.

Shared modules:

- `Wrappers` provides `Option`/`Result`.
- `CsNumerics` models the C# numeric conversions the code relies on. These are `Math.Round` (half to even), the `(int)` cast (truncation) and `int` division.
- `XmlTree` models an abstract `XElement` tree with `Value`, `Element`, `Elements`, `Trim`, `Split` and invariant-culture `int.Parse`/`double.Parse`.

## Model

| member | source | states |
|---|---|---|
| IntegralHelper.ComputeStandardIntegralImage | MLFaceLib/HaarCascadeDetection/IntegralHelper.cs:12-31 | returns a fresh table of the source's dimensions whose cell `[x,y]` is the sum of the source over columns `0..x` and rows `0..y` |
| IntegralHelper.SumRectangleIsBlockSum | MLFaceLib/HaarCascadeDetection/IntegralHelper.cs:82-91 | for a rectangle of at least one pixel inside the image, every corner read is in bounds and `D - B - C + A` (A, B, C read as 0 on the top row / left column) is the sum of the pixels of `[x,x+w)×[y,y+h)` |
| IntegralHelper.RectSumIsBlockSum | MLFaceLib/HaarCascadeDetection/IntegralHelper.cs:82-91 | the same for a rectangle record: the table read equals the pixel block sum |
| IntegralHelper.SumOfTableIsSumOfImage | MLFaceLib/HaarCascadeDetection/IntegralHelper.cs:82-91 | a rectangle sum read from the integral table equals the sum computed from the pixels, so evaluators can be reasoned about on pixels |
| IntegralHelper.ComputeRotatedIntegralImage | MLFaceLib/HaarCascadeDetection/IntegralHelper.cs:44-63 | returns a fresh table of the source's dimensions whose every cell satisfies `T[x,y] = f[x,y] + T[x-1,y-1] + T[x+1,y-1] - T[x,y-2]` with out-of-image operands read as 0 |
| IntegralHelper.GetValueOfTilted | MLFaceLib/HaarCascadeDetection/IntegralHelper.cs:69-76 | on a rotated table, `GetValue` at any integer coordinate is the recurrence value there: the stored cell inside the table, 0 outside it, never an out-of-bounds read |
| IntegralHelper.SumRotatedRectangleCorners | MLFaceLib/HaarCascadeDetection/IntegralHelper.cs:111-118 | for all integer arguments, the rotated-rectangle sum is `T(p) + T(s) - T(q) - T(r)` at `p=(x,y)`, `q=(x+w,y+w)`, `r=(x-h,y+h)`, `s=(x+w-h,y+w+h)` |
| IntegralHelper.TiltedIsParityCone | MLFaceLib/HaarCascadeDetection/IntegralHelper.cs:44-63 | away from the left and right borders, the rotated cell `(x,y)` is the sum of the pixels of the 45° cone above it whose `i + j` has the parity of `x + y`, i.e. only half of the triangle |
| IntegralHelper.TiltedMissesPixelAbove | MLFaceLib/HaarCascadeDetection/IntegralHelper.cs:54-58 | a 3×2 image with a single 1 at `(1,0)`: the rotated cell `(1,1)` directly below holds 0, while the rotated sum over the triangle above it is 1 |
| IntegralHelper.ComputeTriangleIntegralImage | MLFaceLib/HaarCascadeDetection/IntegralHelper.cs:44-63 | the corrected builder, in the source's loop order, that also adds the pixel above, `f[x,y-1]`; returns a fresh table holding the corrected recurrence at every cell |
| IntegralHelper.TriangleAtIsTriangle | MLFaceLib/HaarCascadeDetection/IntegralHelper.cs:44-63 | away from the left and right borders, the corrected cell `(x,y)` is the sum of every pixel `(i,j)` with `j <= y` and `|i - x| <= y - j`: the full 45° triangle above it |
| CsNumerics.RoundHalfEven | MLFaceLib/HaarCascadeDetection/HaarCascadeClassifier.cs:224-227 | `Math.Round` gives an integer within 1/2 of its argument, and the even one on a tie |
| CsNumerics.Truncate | MLFaceLib/HaarCascadeDetection/HaarObjectDetector.cs:62-63 | the `(int)` cast gives the integer next to its argument toward zero |
| CsNumerics.CsDiv | MLFaceLib/HaarCascadeDetection/HaarObjectDetector.cs:48 | `int` division truncates toward zero: for a non-negative dividend `q·b <= a < q·b + b` |
| CsNumerics.PowPositive | MLFaceLib/HaarCascadeDetection/HaarObjectDetector.cs:61 | the scale after `k` multiplications by a positive factor stays positive |
| CsNumerics.Bernoulli | MLFaceLib/HaarCascadeDetection/HaarObjectDetector.cs:61 | after `k` multiplications by `f >= 1` the scale is at least `1 + k(f - 1)`, so it grows without bound when `f > 1` |
| CsNumerics.PowMonotone | MLFaceLib/HaarCascadeDetection/HaarObjectDetector.cs:61 | with `f >= 1` the scale never shrinks from one pass to a later one |
| XmlTree.FirstChild | MLFaceLib/HaarCascadeDetection/HaarCascadeClassifier.cs:72-78 | `Element(name)` is present exactly when some child has that name, and then it is the first such child |
| XmlTree.TrimRemovesWhiteSpace | MLFaceLib/HaarCascadeDetection/HaarCascadeClassifier.cs:116 | `Trim()` is the middle slice of the string, and all that is removed on either side is white space; the result starts and ends with non-white characters or is empty |
| XmlTree.SplitJoin | MLFaceLib/HaarCascadeDetection/HaarCascadeClassifier.cs:117 | `Split(' ', RemoveEmptyEntries)` of space-joined non-empty tokens without spaces gives back the tokens |
| XmlTree.ParseDoubles | MLFaceLib/HaarCascadeDetection/HaarCascadeClassifier.cs:98-105 | parsing every token succeeds with one number per token, each the parse of its token, or fails exactly when some token does not parse |
| XmlTree.ParseInt32OfFormatInt | MLFaceLib/HaarCascadeDetection/HaarCascade.cs:62-64 | `int.Parse` of the invariant-culture text of any 32-bit integer gives that integer back |
| XmlTree.ParseDoubleOfInteger | MLFaceLib/HaarCascadeDetection/HaarCascadeClassifier.cs:124 | `double.Parse` accepts every string that `int.Parse` accepts, with the same value |
| HaarCascadeClassifier.ScaledRectAtBaseSize | MLFaceLib/HaarCascadeDetection/HaarCascadeClassifier.cs:217-227 | at a window of the base size, scaling leaves a rectangle unchanged apart from the shift to the window's corner |
| HaarCascadeClassifier.EvaluateFeature | MLFaceLib/HaarCascadeDetection/HaarCascadeClassifier.cs:217-232 | the loop returns the weighted sum, over the feature's rectangles, of each rectangle's sum after rounding its position and size to the window scale |
| HaarCascadeClassifier.LeafChoice | MLFaceLib/HaarCascadeDetection/HaarCascadeClassifier.cs:192-201 | the vote is `leafValues[0]` when the feature value is below the threshold and `leafValues[1]` otherwise; with fewer than three internal nodes the threshold is 0 |
| HaarCascadeClassifier.EvaluateWeak | MLFaceLib/HaarCascadeDetection/HaarCascadeClassifier.cs:192-201 | returns the vote of the weak classifier on the window, or an index error exactly when the leaf it picks is missing: `LeafValues` is empty, or holds one value and the feature value is not below the threshold |
| HaarCascadeClassifier.StageSumAppend | MLFaceLib/HaarCascadeDetection/HaarCascadeClassifier.cs:150-157 | the stage sum of two lists of weak classifiers placed end to end is the sum of their stage sums |
| HaarCascadeClassifier.StageSumCountsEveryVote | MLFaceLib/HaarCascadeDetection/HaarCascadeClassifier.cs:150-157 | replacing one weak classifier changes the stage sum by exactly the difference of the two votes: every vote is counted once |
| HaarCascadeClassifier.EvaluateStage | MLFaceLib/HaarCascadeDetection/HaarCascadeClassifier.cs:152-157 | the accumulation loop returns the sum of all votes, or an index error exactly when some weak classifier of the stage lacks the leaf it picks |
| HaarCascadeClassifier.EvaluateWindow | MLFaceLib/HaarCascadeDetection/HaarCascadeClassifier.cs:148-165 | returns whether the cascade accepts the window, or an index error exactly when a stage that is reached (every earlier stage passed) has a weak classifier lacking the leaf it picks |
| HaarCascadeClassifier.TwoLeavesCascadeDefined | MLFaceLib/HaarCascadeDetection/HaarCascadeClassifier.cs:148-201 | when every rectangle sum is defined and every weak classifier has two leaf values, evaluating the cascade cannot fail |
| HaarCascadeClassifier.AcceptsIffEveryStagePasses | MLFaceLib/HaarCascadeDetection/HaarCascadeClassifier.cs:148-165 | a window is accepted exactly when every stage's sum reaches its stage threshold |
| HaarCascadeClassifier.RejectsAtFirstFailingStage | MLFaceLib/HaarCascadeDetection/HaarCascadeClassifier.cs:158-162 | once a stage fails, the window is rejected whatever the later stages are, and those stages need not even be defined on the window |
| HaarCascadeClassifier.EmptyCascadeAccepts | MLFaceLib/HaarCascadeDetection/HaarCascadeClassifier.cs:148-165 | a cascade without stages accepts every window |
| HaarCascadeClassifier.FeatureValueOfTable | MLFaceLib/HaarCascadeDetection/HaarCascadeClassifier.cs:217-232 | when every scaled rectangle lies inside the image, the feature value read from the integral table equals the one computed from the pixels |
| HaarCascadeClassifier.StageSumOfTable | MLFaceLib/HaarCascadeDetection/HaarCascadeClassifier.cs:150-157 | when every scaled rectangle lies inside the image, a list of weak classifiers lacks a picked leaf on the table exactly when it does on the pixels, and otherwise the stage sums agree |
| HaarCascadeClassifier.AcceptsOfTable | MLFaceLib/HaarCascadeDetection/HaarCascadeClassifier.cs:148-165 | the same for the cascade on a window: evaluating it on the table fails exactly when it fails on the pixels, and otherwise the two decisions agree |
| HaarCascadeClassifier.Required | MLFaceLib/HaarCascadeDetection/HaarCascadeClassifier.cs:85 | dereferencing an element succeeds exactly when it is present; a missing one is a null dereference naming the element |
| HaarCascadeClassifier.DoublesOfAt | MLFaceLib/HaarCascadeDetection/HaarCascadeClassifier.cs:98-105 | when the list parses, each entry is the `double.Parse` of its token |
| HaarCascadeClassifier.DoublesOfFailure | MLFaceLib/HaarCascadeDetection/HaarCascadeClassifier.cs:98-105 | when the list fails, the error names the first token that does not parse, and all earlier tokens parse |
| HaarCascadeClassifier.FiveTokenListsAt | MLFaceLib/HaarCascadeDetection/HaarCascadeClassifier.cs:114-118 | the rectangle elements kept are those whose trimmed text splits into exactly five tokens |
| HaarCascadeClassifier.ParseRectsLength | MLFaceLib/HaarCascadeDetection/HaarCascadeClassifier.cs:114-127 | a feature gets one rectangle per five-token rect string and none for the others |
| HaarCascadeClassifier.ParseRectsAt | MLFaceLib/HaarCascadeDetection/HaarCascadeClassifier.cs:114-127 | the `m`-th rectangle is parsed from the `m`-th five-token rect string: four `int`s, then a `double` weight |
| HaarCascadeClassifier.ParseRectsFailure | MLFaceLib/HaarCascadeDetection/HaarCascadeClassifier.cs:114-127 | a failure comes from a five-token rect string whose numbers do not parse |
| HaarCascadeClassifier.FeatureAt | MLFaceLib/HaarCascadeDetection/HaarCascadeClassifier.cs:109 | `features.Elements("_").ElementAt(i)` succeeds exactly when `<features>` is present and has more than `i` children named `_`, and then it is the `i`-th one |
| HaarCascadeClassifier.ParseWeak | MLFaceLib/HaarCascadeDetection/HaarCascadeClassifier.cs:92-128 | a parsed weak classifier takes the rectangles of the `i`-th feature and is not tilted |
| HaarCascadeClassifier.ParseWeaks | MLFaceLib/HaarCascadeDetection/HaarCascadeClassifier.cs:90-132 | parsing a stage's weak classifiers yields one per element, takes consecutive features from `i` on, and moves the counter on by their number |
| HaarCascadeClassifier.StageWeaks | MLFaceLib/HaarCascadeDetection/HaarCascadeClassifier.cs:87-133 | a parsed stage's weak classifiers take consecutive features from the counter on, and the counter moves on by their number, so a stage without `<weakClassifiers>` leaves it alone |
| HaarCascadeClassifier.ParseStage | MLFaceLib/HaarCascadeDetection/HaarCascadeClassifier.cs:84-134 | a parsed stage's weak classifiers take consecutive features from the counter on, and the counter moves on by their number |
| HaarCascadeClassifier.ParseStages | MLFaceLib/HaarCascadeDetection/HaarCascadeClassifier.cs:81-135 | across all stages, the weak classifiers in document order take features `0, 1, 2, …`, and the counter ends at their total number |
| HaarCascadeClassifier.ParseRectangles | MLFaceLib/HaarCascadeDetection/HaarCascadeClassifier.cs:114-127 | the rectangle loop returns what the specification `ParseRects` gives for the elements |
| HaarCascadeClassifier.ReadWeakClassifier | MLFaceLib/HaarCascadeDetection/HaarCascadeClassifier.cs:92-128 | returns `ParseWeak` of the element |
| HaarCascadeClassifier.ParseWeakClassifiers | MLFaceLib/HaarCascadeDetection/HaarCascadeClassifier.cs:90-132 | the loop returns `ParseWeaks` of the elements, stopping at the first error |
| HaarCascadeClassifier.ReadStage | MLFaceLib/HaarCascadeDetection/HaarCascadeClassifier.cs:84-134 | returns `ParseStage` of the element |
| HaarCascadeClassifier.ReadStages | MLFaceLib/HaarCascadeDetection/HaarCascadeClassifier.cs:81-135 | the stage loop returns `ParseStages` of the elements, stopping at the first error |
| HaarCascadeClassifier.ParseCascadeFromXDocument | MLFaceLib/HaarCascadeDetection/HaarCascadeClassifier.cs:63-138 | returns the classifier parsed from the root's first child element, or the exception the source would raise |
| HaarCascadeClassifier.KthWeakClassifierTakesKthFeature | MLFaceLib/HaarCascadeDetection/HaarCascadeClassifier.cs:81-131 | in a parsed cascade, the `k`-th weak classifier in document order carries the rectangles of the `k`-th `<features>` entry, and no feature is tilted |
| HaarCascadeClassifier.NoChildElementIsRefused | MLFaceLib/HaarCascadeDetection/HaarCascadeClassifier.cs:66-68 | a root without child elements is refused with the "No cascade element" error |
| HaarCascade.ComputeFeature | MLFaceLib/HaarCascadeDetection/HaarCascade.cs:216-233 | the loop returns the weighted sum of the scaled rectangles' sums, the same scaling and rounding as the classifier's features; `Tilted` plays no part |
| HaarCascade.Vote | MLFaceLib/HaarCascadeDetection/HaarCascade.cs:191-197 | a weak classifier always votes one of its two leaf values |
| HaarCascade.Evaluate | MLFaceLib/HaarCascadeDetection/HaarCascade.cs:191-197 | fails with a null dereference exactly when the weak classifier has no feature, which the loader leaves null when `<feature>` is absent; otherwise returns the left value when the feature value is below the threshold and the right value otherwise |
| HaarCascade.ReadEachAt | MLFaceLib/HaarCascadeDetection/HaarCascade.cs:91-162 | when reading every element succeeds, the `m`-th result is the reading of the `m`-th element |
| HaarCascade.ReadEach | MLFaceLib/HaarCascadeDetection/HaarCascade.cs:91-162 | reading a list gives one result per element, or fails with the error of some element |
| HaarCascade.BaseSize | MLFaceLib/HaarCascadeDetection/HaarCascade.cs:57-80 | without `<size>` the base window is 24×24; with exactly two tokens that both `TryParse`, it is those two numbers; a `<size>` with another number of tokens or a token that does not parse also gives 24×24 |
| HaarCascade.SizeOfTwoInts | MLFaceLib/HaarCascadeDetection/HaarCascade.cs:57-68 | a `<size>` holding the text of two 32-bit integers separated by a space gives exactly those integers |
| HaarCascade.LoadTrees | MLFaceLib/HaarCascadeDetection/HaarCascade.cs:102-159 | a failure in the trees comes from reading the first `_` child of some tree |
| HaarCascade.TreesAreTheirFirstWeaks | MLFaceLib/HaarCascadeDetection/HaarCascade.cs:102-107 | reading the trees is reading, in order, the first `_` child of each tree that has one; trees without one are skipped |
| HaarCascade.LeavesOfWeak | MLFaceLib/HaarCascadeDetection/HaarCascade.cs:143-155 | a loaded weak classifier's leaves are the parsed `left_val` and `right_val` when both are present, and 0 and 1 otherwise |
| HaarCascade.TiltedIffOne | MLFaceLib/HaarCascadeDetection/HaarCascade.cs:135-136 | a feature is tilted exactly when the `<tilted>` text is `1` surrounded only by white space |
| HaarCascade.LoadWeak | MLFaceLib/HaarCascadeDetection/HaarCascade.cs:108-157 | reading a weak classifier can only fail inside `<stages>` (a missing element or a bad number), never with the missing-`<cascade>` or missing-`<stages>` errors |
| HaarCascade.LoadStage | MLFaceLib/HaarCascadeDetection/HaarCascade.cs:93-161 | the same for a stage: its failures are read errors below `<stages>` |
| HaarCascade.ReadFeature | MLFaceLib/HaarCascadeDetection/HaarCascade.cs:111-138 | returns `LoadFeature` of the element: its five-token rectangles and its tilted flag |
| HaarCascade.ReadWeak | MLFaceLib/HaarCascadeDetection/HaarCascade.cs:108-157 | returns `LoadWeak` of the element |
| HaarCascade.ReadTrees | MLFaceLib/HaarCascadeDetection/HaarCascade.cs:99-160 | the tree loop returns `LoadTrees` of the tree elements |
| HaarCascade.ReadStage | MLFaceLib/HaarCascadeDetection/HaarCascade.cs:93-161 | returns `LoadStage` of the element |
| HaarCascade.ReadStages | MLFaceLib/HaarCascadeDetection/HaarCascade.cs:91-162 | the stage loop returns the stages read from every `_` element, stopping at the first error |
| HaarCascade.Load | MLFaceLib/HaarCascadeDetection/HaarCascade.cs:47-165 | returns the cascade loaded from the root, or the exception the source would raise |
| HaarCascade.MissingCascadeOrStagesIsRefused | MLFaceLib/HaarCascadeDetection/HaarCascade.cs:50-52 | loading fails with "missing `<cascade>`" exactly when the root has no `<cascade>` child, and with "missing `<stages>`" exactly when the cascade has no `<stages>` child |
| HaarCascade.OneStagePerElement | MLFaceLib/HaarCascadeDetection/HaarCascade.cs:84-162 | a loaded cascade has one stage per `_` element of `<stages>`, each the reading of its element |
| HaarObjectDetector.Step | MLFaceLib/HaarCascadeDetection/HaarObjectDetector.cs:48 | the step is at least 2, and a tenth of the window width (rounded down) once the window is 20 or wider |
| HaarObjectDetector.WindowSizeAtStart | MLFaceLib/HaarCascadeDetection/HaarObjectDetector.cs:39-43 | the first pass uses the cascade's base size |
| HaarObjectDetector.WindowSizeGrows | MLFaceLib/HaarCascadeDetection/HaarObjectDetector.cs:61-63 | window sizes never fall below the base size and never shrink from one pass to a later one |
| HaarObjectDetector.SizesGrow | MLFaceLib/HaarCascadeDetection/HaarObjectDetector.cs:61-63 | for a base of at least 1 and scales `1 <= pj <= pk`, the truncated window sizes are at least the base and do not decrease |
| HaarObjectDetector.FitsBelowBound | MLFaceLib/HaarCascadeDetection/HaarObjectDetector.cs:46 | a pass whose window fits the image comes before a bound fixed by the image width and the scale factor, so the search ends |
| HaarObjectDetector.ReachedApart | MLFaceLib/HaarCascadeDetection/HaarObjectDetector.cs:50-52 | two distinct positions the loops reach are at least a step apart |
| HaarObjectDetector.DetectionsAreAcceptedWindows | MLFaceLib/HaarCascadeDetection/HaarObjectDetector.cs:28-67 | a window is detected exactly when a pass visits it (its size is that pass's size, its corner is on the step grid, no further than `W - w - step` and `H - h - step`) and the cascade accepts it; detections come strictly in pass, row, column order |
| HaarObjectDetector.ScanFromSound | MLFaceLib/HaarCascadeDetection/HaarObjectDetector.cs:46-64 | every detection made from a loop position on is a visited, accepted window at or after that position |
| HaarObjectDetector.ScanFromComplete | MLFaceLib/HaarCascadeDetection/HaarObjectDetector.cs:46-64 | every visited, accepted window at or after a loop position is detected from it |
| HaarObjectDetector.ScanFromSorted | MLFaceLib/HaarCascadeDetection/HaarObjectDetector.cs:46-64 | the detections are in strict scan order, so none is reported twice |
| HaarObjectDetector.ThrowsFromSound | MLFaceLib/HaarCascadeDetection/HaarObjectDetector.cs:46-64 | when the search throws from a loop position on, the cascade throws on some visited window at or after that position |
| HaarObjectDetector.ThrowsFromComplete | MLFaceLib/HaarCascadeDetection/HaarObjectDetector.cs:46-64 | a visited window at or after a loop position on which the cascade throws makes the search from that position throw |
| HaarObjectDetector.SearchThrowsIffSomeWindowThrows | MLFaceLib/HaarCascadeDetection/HaarObjectDetector.cs:28-67 | the search from its start throws exactly when the cascade throws on some visited window |
| HaarObjectDetector.VisitedIsInside | MLFaceLib/HaarCascadeDetection/HaarObjectDetector.cs:50-52 | a visited window lies inside the image with at least two pixels to spare at the right and bottom |
| HaarObjectDetector.NoHitsAfterOversizedPass | MLFaceLib/HaarCascadeDetection/HaarObjectDetector.cs:46 | once a pass's window no longer fits, no later pass visits anything |
| HaarObjectDetector.ScaledRectInside | MLFaceLib/HaarCascadeDetection/HaarObjectDetector.cs:54 | a rectangle inside the base window, scaled and rounded onto a window no smaller than the base with a pixel to spare, lies inside the image |
| HaarObjectDetector.VisitedWindowOfTable | MLFaceLib/HaarCascadeDetection/HaarObjectDetector.cs:54 | on a well-formed cascade, every rectangle read for a visited window is inside the table; evaluating on the table fails exactly when the cascade throws on the pixels, and otherwise the decision read from the table equals the decision on the pixels |
| HaarObjectDetector.TwoLeavesNeverThrow | MLFaceLib/HaarCascadeDetection/HaarObjectDetector.cs:74-89 | on a well-formed cascade whose weak classifiers all have two leaf values, the cascade throws on no visited window |
| HaarObjectDetector.WindowStep | MLFaceLib/HaarCascadeDetection/HaarObjectDetector.cs:52-57 | one column step of the search: the window's sums are defined; the search throws from here exactly when this window throws or the search throws from the next column; otherwise the window is reported if accepted, then the scan continues one step to the right |
| HaarObjectDetector.RowEnd | MLFaceLib/HaarCascadeDetection/HaarObjectDetector.cs:50-52 | past the last column the search, its detections and whether it throws, moves to the next row at column 0 |
| HaarObjectDetector.PassEnd | MLFaceLib/HaarCascadeDetection/HaarObjectDetector.cs:50 | past the last row the search, its detections and whether it throws, moves to the next pass |
| HaarObjectDetector.NextScale | MLFaceLib/HaarCascadeDetection/HaarObjectDetector.cs:61-63 | multiplying the running scale by the factor and truncating `base · scale` gives the window size of the next pass |
| HaarObjectDetector.ScanEnd | MLFaceLib/HaarCascadeDetection/HaarObjectDetector.cs:46 | a pass whose window does not fit ends the search with nothing more and without throwing |
| HaarObjectDetector.ComputeIntegralImage | MLFaceLib/HaarCascadeDetection/HaarObjectDetector.cs:95-119 | returns a fresh standard integral table of the grey image |
| HaarObjectDetector.PassesCascade | MLFaceLib/HaarCascadeDetection/HaarObjectDetector.cs:74-89 | returns whether every stage's sum of votes reaches its threshold, stopping at the first failure, or an index error exactly when a stage that is reached has a weak classifier lacking the leaf it picks |
| HaarObjectDetector.ScanRow | MLFaceLib/HaarCascadeDetection/HaarObjectDetector.cs:52-58 | the column loop fails exactly when the cascade throws on a window of its row; otherwise it reports, in order, the accepted windows of its row |
| HaarObjectDetector.ScanLevel | MLFaceLib/HaarCascadeDetection/HaarObjectDetector.cs:50-59 | the row loop fails exactly when the cascade throws on a window of its pass; otherwise it reports, in order, the accepted windows of its pass |
| HaarObjectDetector.DetectObjects | MLFaceLib/HaarCascadeDetection/HaarObjectDetector.cs:28-67 | fails exactly when the search comes to a window on which the cascade throws, which by `SearchThrowsIffSomeWindowThrows` is some visited window; otherwise returns the rectangles of the search's detections in scan order, which by `DetectionsAreAcceptedWindows` are exactly the visited windows the cascade accepts |
| DemoObjectDetector.DemoStagesWellFormed | MLFaceLib/HaarObjectDetector.cs:15-33 | the constructor's cascade is well formed: one stage with one left/right feature over the whole 24×24 base window |
| DemoObjectDetector.ScaledAxisIsTruncatedProduct | MLFaceLib/HaarObjectDetector.cs:243-251 | a scaled offset or length is the truncation of `v · (size / 24)` |
| DemoObjectDetector.WholeBaseScales | MLFaceLib/HaarObjectDetector.cs:243-251 | the whole base window scales to the whole window |
| DemoObjectDetector.HalvesPartition | MLFaceLib/HaarObjectDetector.cs:258-280 | the two halves tile the scaled rectangle, the second half being the larger by at most one pixel, so their sums add up to the rectangle's sum |
| DemoObjectDetector.FeatureIsHalfDifference | MLFaceLib/HaarObjectDetector.cs:240-287 | a feature inside the base window reads only pixels inside the window, and its value is the sum of the first half minus the sum of the second, equally from the table or from the pixels |
| DemoObjectDetector.StageSumOfTable | MLFaceLib/HaarObjectDetector.cs:98-110 | the feature values read from the table equal those computed from the pixels |
| DemoObjectDetector.AcceptsOfTable | MLFaceLib/HaarObjectDetector.cs:92-119 | the cascade's decision read from the table equals its decision on the pixels |
| DemoObjectDetector.SingleFeatureStage | MLFaceLib/HaarObjectDetector.cs:98-115 | a one-feature stage passes exactly when the feature reaches its own threshold and its weighted value reaches the stage threshold |
| DemoObjectDetector.DemoFeatureValue | MLFaceLib/HaarObjectDetector.cs:258-268 | the fixed feature's value is the left half's sum minus the right half's sum |
| DemoObjectDetector.DemoAccepts | MLFaceLib/HaarObjectDetector.cs:92-119 | the fixed cascade accepts a window exactly when its left half outweighs its right half by at least 1000 |
| DemoObjectDetector.ScanFromSound | MLFaceLib/HaarObjectDetector.cs:63-84 | every detection from a loop position on is a visited, accepted window at or after it |
| DemoObjectDetector.ScanFromComplete | MLFaceLib/HaarObjectDetector.cs:63-84 | every visited, accepted window at or after a loop position is detected from it |
| DemoObjectDetector.ScanFromSorted | MLFaceLib/HaarObjectDetector.cs:63-84 | the detections are in strict scan order |
| DemoObjectDetector.DetectionsAreAcceptedWindows | MLFaceLib/HaarObjectDetector.cs:63-84 | a window is detected exactly when a pass visits it (square of that pass's size, corner on the 4-pixel grid with `x <= W - size`, `y <= H - size`) and the cascade accepts it; detections come in scan order |
| DemoObjectDetector.VisitedIsInside | MLFaceLib/HaarObjectDetector.cs:68-70 | a visited window is square and lies inside the image |
| DemoObjectDetector.DemoDetections | MLFaceLib/HaarObjectDetector.cs:42-87 | with the constructor's cascade, the detections are exactly the visited windows whose left half outweighs the right half by at least 1000 |
| DemoObjectDetector.WindowStep | MLFaceLib/HaarObjectDetector.cs:70-76 | one column step of the scan: the window is reported if accepted, then the scan continues 4 pixels to the right |
| DemoObjectDetector.RowEnd | MLFaceLib/HaarObjectDetector.cs:68-70 | past the last column the scan moves 4 rows down to column 0 |
| DemoObjectDetector.PassEnd | MLFaceLib/HaarObjectDetector.cs:68 | past the last row the scan moves to the next pass |
| DemoObjectDetector.ScanEnd | MLFaceLib/HaarObjectDetector.cs:63 | a pass whose window does not fit ends the search |
| DemoObjectDetector.NextScale | MLFaceLib/HaarObjectDetector.cs:81-83 | multiplying the scale by the factor and truncating `24 · scale` gives the next pass's window size |
| DemoObjectDetector.ComputeIntegralImage | MLFaceLib/HaarObjectDetector.cs:152-186 | returns a fresh standard integral table of the grey image |
| DemoObjectDetector.FeatureValueAt | MLFaceLib/HaarObjectDetector.cs:100 | returns the value of the `i`-th feature on the window |
| DemoObjectDetector.EvaluateStage | MLFaceLib/HaarObjectDetector.cs:97-115 | returns whether every feature reaches its threshold and the weighted sum reaches the stage threshold, stopping at the first failing feature |
| DemoObjectDetector.PassesCascade | MLFaceLib/HaarObjectDetector.cs:92-119 | returns whether every stage passes |
| DemoObjectDetector.ScanRow | MLFaceLib/HaarObjectDetector.cs:70-77 | the column loop reports, in order, the accepted windows of its row |
| DemoObjectDetector.ScanLevel | MLFaceLib/HaarObjectDetector.cs:68-78 | the row loop reports, in order, the accepted windows of its pass |
| DemoObjectDetector.HaarObjectDetector.constructor | MLFaceLib/HaarObjectDetector.cs:15-33 | the detector holds the fixed one-stage cascade |
| DemoObjectDetector.HaarObjectDetector.DetectObjects | MLFaceLib/HaarObjectDetector.cs:42-87 | returns the rectangles of the search's detections in scan order, characterised by `DetectionsAreAcceptedWindows` and `DemoDetections` |
| FaceDetector.GreyIsNotSkin | MLFaceLib/FaceDetector.cs:20-32 | a grey pixel has `Cr = Cb = 128` and is never skin |
| FaceDetector.SkinIsRedderThanLuma | MLFaceLib/FaceDetector.cs:20-32 | a skin pixel's red channel exceeds its luma |
| FaceDetector.BuildSkinMask | MLFaceLib/FaceDetector.cs:234-242 | returns a fresh mask of the image's size that is true exactly at the skin-coloured pixels |
| FaceDetector.DilateMask | MLFaceLib/FaceDetector.cs:37-63 | returns a fresh mask, true exactly at the cells within `kernelSize / 2` (both axes) of a set cell of the input |
| FaceDetector.ErodeMask | MLFaceLib/FaceDetector.cs:68-94 | returns a fresh mask, true exactly at the cells whose whole `kernelSize / 2` neighbourhood lies in the image and is set |
| FaceDetector.DilationExtends | MLFaceLib/FaceDetector.cs:37-63 | dilation keeps every set cell |
| FaceDetector.ErosionShrinks | MLFaceLib/FaceDetector.cs:68-94 | erosion sets no cell that was clear |
| FaceDetector.ErosionClearsBorder | MLFaceLib/FaceDetector.cs:68-94 | erosion clears every cell within the offset of the image border |
| FaceDetector.MorphologicalClosing | MLFaceLib/FaceDetector.cs:100-112 | returns `iterations` dilations followed by `iterations` erosions of the mask, and the mask itself when `iterations <= 0` |
| FaceDetector.ClosingKeepsInterior | MLFaceLib/FaceDetector.cs:100-112 | one closing keeps every set cell that lies at least the offset away from the border |
| FaceDetector.ConnectedSymmetric | MLFaceLib/FaceDetector.cs:195-215 | 8-connectivity through cells of one value is symmetric |
| FaceDetector.ConnectedTransitive | MLFaceLib/FaceDetector.cs:195-215 | 8-connectivity is transitive |
| FaceDetector.InComponent | MLFaceLib/FaceDetector.cs:195-215 | a cell is in a seed's component exactly when an 8-connected path of equal-valued cells joins them |
| FaceDetector.SameComponent | MLFaceLib/FaceDetector.cs:195-215 | two connected cells have the same component |
| FaceDetector.ClosedKeepsComponent | MLFaceLib/FaceDetector.cs:127-160 | a set of cells closed under neighbouring equal-valued cells holds the whole component of each of its cells, so a visited cell's component is never revisited |
| FaceDetector.RegionIsComponent | MLFaceLib/FaceDetector.cs:195-215 | a duplicate-free list holding exactly the cells connected to a seed is that seed's component, counted exactly, and the same component for each of its cells |
| FaceDetector.Flood | MLFaceLib/FaceDetector.cs:127-160 | the breadth-first flood from an unvisited seed returns, without duplicates, exactly the cells connected to the seed, marks exactly those as visited, and reports whether one of them is on the border |
| FaceDetector.RegionHoles | MLFaceLib/FaceDetector.cs:162-170 | after a flood over background cells, each flooded cell is a hole exactly when the region touches no border and has at most `maxHoleSize` cells |
| FaceDetector.FillHoles | MLFaceLib/FaceDetector.cs:119-176 | returns a fresh mask: the input plus every clear cell whose clear component touches no border and has at most `maxHoleSize` cells |
| FaceDetector.FindConnectedComponents | MLFaceLib/FaceDetector.cs:179-222 | returns, in scan order of their first cells, each 8-connected component of set cells with at least `minArea` cells, listed from that first cell without duplicates, and no other |
| FaceDetector.ComponentsComplete | MLFaceLib/FaceDetector.cs:179-222 | once the scan has covered every row, the listed components are exactly the large enough components, in scan order |
| FaceDetector.ComponentsInImage | MLFaceLib/FaceDetector.cs:179-222 | every cell of a listed component lies in the image |
| FaceDetector.BoundsOfIsBoundingBox | MLFaceLib/FaceDetector.cs:256-263 | the box loop's result is the smallest box holding every point of the component |
| FaceDetector.ComponentBounds | MLFaceLib/FaceDetector.cs:256-263 | the min/max loop returns the bounding box of the component |
| FaceDetector.MarginIsTenth | MLFaceLib/FaceDetector.cs:265-268 | the margin `(int)(extent · 0.1)` is `extent / 10` |
| FaceDetector.ExpandCovers | MLFaceLib/FaceDetector.cs:265-272 | the widened rectangle still holds the box, stays inside the image, and grows each side by at most a tenth of the box's extent |
| FaceDetector.KeptIff | MLFaceLib/FaceDetector.cs:275-279 | a rectangle is kept exactly when both sides are at least 60 pixels and the width is between half and one and a half times the height |
| FaceDetector.RectCoversComponent | MLFaceLib/FaceDetector.cs:256-272 | the rectangle of a component lies in the image and holds every point of the component |
| FaceDetector.ComponentRect | MLFaceLib/FaceDetector.cs:256-272 | returns the widened, clamped rectangle of the component |
| FaceDetector.FaceRectsOfSound | MLFaceLib/FaceDetector.cs:253-284 | every returned rectangle is the kept rectangle of some component |
| FaceDetector.FaceRectsOfComplete | MLFaceLib/FaceDetector.cs:253-284 | every component whose rectangle passes the filters has its rectangle returned |
| FaceDetector.FaceRectsShape | MLFaceLib/FaceDetector.cs:253-284 | every returned rectangle lies in the image, is at least 60×60 and has the aspect ratio between 1/2 and 3/2 |
| FaceDetector.FaceRectangles | MLFaceLib/FaceDetector.cs:253-284 | the box loop returns the kept rectangles of the components, in order |
| FaceDetector.BuildFaceMask | MLFaceLib/FaceDetector.cs:233-248 | returns the skin mask after two closings with kernel 5 and hole filling up to 1000 cells |
| FaceDetector.DetectFaceRectangles | MLFaceLib/FaceDetector.cs:228-285 | returns the kept rectangles of the components of at least 1500 cells of the filled mask, and every one of them is face-shaped |
| FisherFaces.ProductIdentityRight | MLFaceLib/FisherFaces.cs:15-30 | the product with the identity on the right is the matrix itself |
| FisherFaces.ProductIdentityLeft | MLFaceLib/FisherFaces.cs:15-30 | the product with the identity on the left is the matrix itself |
| FisherFaces.TransposeTwice | MLFaceLib/FisherFaces.cs:51-60 | transposing twice gives back the matrix |
| FisherFaces.TransposeOfProduct | MLFaceLib/FisherFaces.cs:15-60 | the transpose of `A·B` is `Bᵀ·Aᵀ` |
| FisherFaces.ApplyIdentity | MLFaceLib/FisherFaces.cs:33-48 | the identity applied to a vector gives the vector |
| FisherFaces.ApplyIsProduct | MLFaceLib/FisherFaces.cs:33-48 | matrix–vector multiplication agrees with matrix multiplication by a one-column matrix |
| FisherFaces.DotSymmetric | MLFaceLib/FisherFaces.cs:24-26 | the dot product is symmetric |
| FisherFaces.DotOfSquares | MLFaceLib/FisherFaces.cs:72-78 | a vector's sum of squares is non-negative |
| FisherFaces.Multiply | MLFaceLib/FisherFaces.cs:15-30 | fails with an index error exactly when `A` has more columns than `B` has rows (and neither result dimension is empty); otherwise returns a fresh `m×p` array whose `[i,j]` is the dot product of row `i` of `A` and column `j` of `B` |
| FisherFaces.MultiplyVector | MLFaceLib/FisherFaces.cs:33-48 | fails exactly when the vector length differs from the column count; otherwise returns the vector of row dot products |
| FisherFaces.Transpose | MLFaceLib/FisherFaces.cs:51-60 | returns a fresh array with the dimensions swapped and `T[j,i] = A[i,j]` |
| FisherFaces.Identity | MLFaceLib/FisherFaces.cs:63-69 | returns a fresh `n×n` array with 1 on the diagonal and 0 elsewhere |
| FisherFaces.SquaredNorm | MLFaceLib/FisherFaces.cs:72-78 | returns the sum of squares of the entries |
| FisherFaces.Normalize | MLFaceLib/FisherFaces.cs:81-89 | given the norm, divides every entry by it in place when it exceeds `1e-10`, and leaves the vector unchanged otherwise |
| FisherFaces.NormalizedIsUnit | MLFaceLib/FisherFaces.cs:81-89 | a vector divided by its positive norm has unit length |
| FisherFaces.DotUnit | MLFaceLib/FisherFaces.cs:24-26 | the dot product with the `j`-th unit vector picks entry `j` |
| FisherFaces.StageClearsColumn | MLFaceLib/FisherFaces.cs:108-126 | one elimination stage on a nonzero pivot turns column `i` into a unit column and keeps the earlier unit columns |
| FisherFaces.GaussJordanLeftInverse | MLFaceLib/FisherFaces.cs:99-128 | if `R·A = T` holds before a stage, the finished elimination's `R` is a left inverse of `A` |
| FisherFaces.InverseIsLeftInverse | MLFaceLib/FisherFaces.cs:92-129 | when the inversion succeeds, its result times the input is the identity |
| FisherFaces.InverseNeedsSquare | MLFaceLib/FisherFaces.cs:94-96 | the inversion fails with "must be square" exactly when the matrix is not square |
| FisherFaces.GaussJordanError | MLFaceLib/FisherFaces.cs:101-106 | every other failure of the elimination is the "singular" error |
| FisherFaces.InverseOfIdentity | MLFaceLib/FisherFaces.cs:92-129 | the identity inverts to itself |
| FisherFaces.SwapIsRejected | MLFaceLib/FisherFaces.cs:104-106 | the 2×2 swap matrix is its own inverse, yet is refused as singular, because no row exchange is tried |
| FisherFaces.Inverse | MLFaceLib/FisherFaces.cs:92-129 | the elimination in place fails exactly when the specification `InverseOf` fails, with the same error, and otherwise returns a fresh array holding its result |
| FisherFaces.MeanIsAverage | MLFaceLib/FisherFaces.cs:263-271 | each mean pixel times the number of images is the sum of that pixel over the images |
| FisherFaces.CenteredSumsToZero | MLFaceLib/FisherFaces.cs:273-280 | the centred images sum to zero at every pixel |
| FisherFaces.NearestIsFirstMinimum | MLFaceLib/FisherFaces.cs:519-536 | the search ends at index -1 exactly when every squared distance is at least `double.MaxValue`; otherwise at the first index of minimal squared distance, that distance being below `double.MaxValue` |
| FisherFaces.SquaredDistanceNonnegative | MLFaceLib/FisherFaces.cs:525-530 | squared distances are never negative |
| FisherFaces.SquaredDistanceOfEqual | MLFaceLib/FisherFaces.cs:525-530 | equal projections are at distance 0 |
| FisherFaces.NearestOfExactMatch | MLFaceLib/FisherFaces.cs:519-536 | when some training projection is at distance 0, the search picks an index no later than it, at distance 0, and every earlier index is at positive distance |
| FisherFaces.TrainingImageMatches | MLFaceLib/FisherFaces.cs:247-538 | after training, each training image is recognised as the label of a training image no later than it whose projection is at distance 0 from its own, and no projection before that one equals its own |
| FisherFaces.ComputeMean | MLFaceLib/FisherFaces.cs:263-271 | returns the mean image |
| FisherFaces.CenterImages | MLFaceLib/FisherFaces.cs:273-280 | returns each image minus the mean |
| FisherFaces.ProjectImage | MLFaceLib/FisherFaces.cs:509-517 | returns the projection of a centred image: entry `c` is the dot product of column `c` of the projection matrix with the image |
| FisherFaces.Distance | MLFaceLib/FisherFaces.cs:525-530 | the accumulation loop returns exactly the squared Euclidean distance `SquaredDistance` over the first L components |
| FisherFaces.FindNearest | MLFaceLib/FisherFaces.cs:519-536 | the search loop returns the index of the specification `Nearest` |
| FisherFaces.FisherFaceRecognizer.constructor | MLFaceLib/FisherFaces.cs:238-242 | stores both component counts; the recognizer starts untrained and without a mean, with image size 0 |
| FisherFaces.FisherFaceRecognizer.Train | MLFaceLib/FisherFaces.cs:247-493 | fails on no images, on differing image and label counts, on an image of another length, on a negative `numComponentsPCA` (an overflow), and on more PCA components than images or more LDA components than PCA components (an index error), each exactly in its case. The first two failures change nothing; the size failure leaves `imageSize` at the first image's length; the component failures come after the mean step and leave the new size and the mean image. Success stores that size, the mean image, the projection matrix, the projections of the centred images and a copy of the labels |
| FisherFaces.FisherFaceRecognizer.Recognize | MLFaceLib/FisherFaces.cs:499-538 | returns `Recognition` of the state, whose checks come in the source's order: a size error for a probe of another length; a null dereference when no mean was ever stored and the size is positive; an index error when the mean is shorter than the image size; a null dereference when untrained; an index error when there are components and the projection matrix has fewer rows than the image size, or when no distance is below `double.MaxValue`; otherwise the label of the nearest training projection |

## Left out

- Cascade documents are abstract element trees. Nothing is modelled of reading them from a URL, an embedded resource or a file (`LoadFromUrl`, `LoadFromEmbeddedResource`, `Load(string)`, `LoadEmbeded`, `XmlResourceLoader.cs`). The same goes for XML syntax itself.
- Bitmap decoding and grey conversion are left out: ImageSharp `CloneAs<L8>`, System.Drawing `ConvertToGrayscale`/`LockBits`, SkiaSharp `GetPixel`. Images are `array2` parameters of grey levels or colours.
- `long` and `int` overflow is not modelled: integers are unbounded. Sums over images up to the library's sizes stay far below 2^63.
- Doubles (and the `float` aspect ratio in `FaceDetector.cs`) are exact reals, so rounding error is not modelled. The two exceptions are that `Math.Round` rounds halves to even and `(int)` truncates, both modelled exactly.
- The `Math.Sqrt` in `MatrixOperations.Norm` is not modelled; `FisherFaces.SquaredNorm` models its loop. `FisherFaces.Normalize` takes the norm as a parameter instead, with the requirement that its square be the sum of squares.
- `JacobiEigen`, `MultiplyMatrices` and the numerics of Train's steps 3–9 (`MLFaceLib/FisherFaces.cs:135-473`) are left out. These are the covariance, PCA and LDA scatter matrices, the eigen-solver and the product `pcaEigenvectors · ldaEigenvectors`. The floating-point numerics are only approximately correct. `FisherFaces.FisherFaceRecognizer.Train` takes the resulting projection matrix as a parameter. Of the exceptions of those steps it models the ones the component counts cause: the negative array size at line 309 and the index errors at lines 312 and 450, the latter two given that `JacobiEigen` returns one eigenvalue per row. `pcaEigenvectors` is not kept, so its replacement at line 309 by a `Train` that then fails is not modelled.
- `SaveModel`/`LoadModel` are file I/O and are left out.
- Also left out: `EigenFaces.cs`, `FaceRecognizer.cs`, `FaceDetect.cs`, the ONNX wrappers, the image tools, and all UI and demo applications.
- Null arguments are not modelled: a null image array, label array or probe in `FisherFaces.cs`, and a null document root in the loaders.
- `FisherFaces.FisherFaceRecognizer.constructor`: the component counts are `nat`. A negative `numComponentsLDA` would make the source's array allocation throw, and that case is not modelled.
- `FisherFaces.Identity` takes a `nat` size. `new double[n, n]` throws on a negative `n`, and that case is not modelled.
- `FisherFaces.TrainingImageMatches` states that the chosen training projection is at distance 0 from the probe's, not that the two are equal. Equality would follow over the reals, but the arithmetic step from a zero sum of squares to zero terms is left unproved.
- `FisherFaces.Normalize`: the division happens in place, but the proof takes the norm as an argument (see `Norm` above).
- `HaarObjectDetector.DetectObjects` requires a scale factor above 1 and a cascade whose base sizes are at least 1 and whose rectangles lie inside the base window (`WellFormed`). With a factor of at most 1 the source's outer loop may never end. With rectangles outside the window the source can read outside the integral table, an `IndexOutOfRangeException` in `SumRectangle` that is not modelled. Weak classifiers with fewer than two leaf values are allowed: the search then fails exactly when it reaches a window on which a missing leaf is picked.
- `HaarCascadeClassifier.EvaluateWeak`, `HaarCascadeClassifier.EvaluateStage`, `HaarCascadeClassifier.EvaluateWindow` and `HaarObjectDetector.PassesCascade` require every rectangle sum they read to lie inside the table. A read outside it, an `IndexOutOfRangeException` in `SumRectangle`, is not modelled; the read of a missing leaf value is.
- `HaarCascade.Evaluate` likewise requires, when the weak classifier has a feature, every rectangle sum it reads to lie inside the table; a read outside it is not modelled, the null feature is.
- `XmlTree.ParseDouble` accepts decimal numbers only. The invariant culture's symbols `NaN`, `Infinity` and `-Infinity`, which `double.Parse` accepts, are refused, so a cascade holding them fails to load with `InvalidNumber` where the source would load a NaN or an infinite value.
- `DemoObjectDetector.HaarObjectDetector.DetectObjects` likewise requires a scale factor above 1. Its `minSize` parameter is not modelled, since the source computes it and never uses it.
- Tilted features are not evaluated. Both evaluators sum upright rectangles even when `Tilted` is set, and the rotated table is modelled on its own.
- `HaarCascadeClassifier.cs` keeps the cascade's name, stage type and feature type, which no evaluator reads. They are parsed as the source does and nothing is proved about them.

## Findings

| source | as written | input that shows it | evidently intended | confidence | as-written member | corrected member |
|---|---|---|---|---|---|---|
| MLFaceLib/HaarCascadeDetection/IntegralHelper.cs:54-58 | the rotated table uses `T[x,y] = f[x,y] + T[x-1,y-1] + T[x+1,y-1] - T[x,y-2]`, which never adds the pixel directly above, so each cell sums only the checkerboard half of the 45° triangle above it | a 3×2 image that is 0 except for a 1 at `(1,0)`: the rotated cell `(1,1)` holds 0, although `(1,0)` lies in its triangle | the Lienhart–Maydt rotated table, whose recurrence also adds `f[x,y-1]`, so that each cell is the sum of the full triangle | not executed | IntegralHelper.TiltedMissesPixelAbove | IntegralHelper.TriangleAtIsTriangle |
