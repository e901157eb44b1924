/**
 * The demonstration detector of `MLFaceLib/HaarObjectDetector.cs`.
 *
 * Its cascade is fixed by the constructor: one stage holding one
 * two-rectangle feature over the whole 24 × 24 base window.  A feature is
 * scaled to the window by truncating the products of its offsets and sizes
 * with `windowSize / 24`, its rectangle is cut in two halves (side by side or
 * one above the other), and its value is the sum of the first half minus the
 * sum of the second.  A window passes when every feature reaches its own
 * threshold and every stage's weighted sum reaches the stage threshold.
 *
 * The search slides square windows by a fixed step of 4 pixels, from the
 * top-left corner while the window still fits the image (`x <= W - size`,
 * `y <= H - size`), and grows the window after each pass as the cascade
 * detector does.  The image is a grid of grey levels indexed `[x, y]`.
 */
module DemoObjectDetector {
  import opened CsNumerics
  import opened IntegralHelper
  import D = HaarObjectDetector

  // ----- The cascade -----

  datatype HaarFeatureType = TwoRectangleHorizontal | TwoRectangleVertical

  /** A feature given in the coordinates of the 24 × 24 base window. */
  datatype HaarFeature = HaarFeature(featureType: HaarFeatureType, featureRect: Rect, weight: real, threshold: real)

  datatype HaarStage = HaarStage(features: seq<HaarFeature>, stageThreshold: real)

  /** The side of the base window, for which feature rectangles are given. */
  const BaseSize := 24

  /** The fixed slide of the window, in pixels, along both axes. */
  const Step := 4

  /** The one feature of the constructor's cascade: the whole base window cut into left and right halves. */
  function DemoFeature(): HaarFeature
  {
    HaarFeature(TwoRectangleHorizontal, Rect(0, 0, 24, 24), 1.0, 1000.0)
  }

  /** The cascade the constructor builds. */
  function DemoStages(): seq<HaarStage>
  {
    [HaarStage([DemoFeature()], 0.5)]
  }

  // ----- Features -----

  /**
   * An offset or length `v` of the base window scaled to a window side of
   * `size`: `(int)(v * (size / 24.0))`, which in exact arithmetic is the
   * quotient of `v * size` by 24 truncated toward zero.
   */
  function ScaledAxis(v: int, size: int): int
  {
    CsDiv(v * size, BaseSize)
  }

  /** `ScaledAxis` is the truncated product of `v` and the scale `size / 24`. */
  lemma ScaledAxisIsTruncatedProduct(v: int, size: int)
    ensures ScaledAxis(v, size) == Truncate(v as real * (size as real / BaseSize as real))
  {
    var p := v * size;
    var r := v as real * (size as real / BaseSize as real);
    assert r == p as real / BaseSize as real;
    var q := CsDiv(p, BaseSize);
    if p >= 0 {
      assert q as real <= r < q as real + 1.0;
    } else {
      assert q as real - 1.0 < r <= q as real;
    }
  }

  /** The feature rectangle scaled to the window and moved to its corner. */
  function ScaledRect(r: Rect, window: Rect): Rect
  {
    Rect(window.x + ScaledAxis(r.x, window.width), window.y + ScaledAxis(r.y, window.height),
         ScaledAxis(r.width, window.width), ScaledAxis(r.height, window.height))
  }

  /**
   * The two halves of a feature: left and right (the first `width / 2`
   * columns, then the rest) or top and bottom (the first `height / 2` rows,
   * then the rest).
   */
  function Halves(t: HaarFeatureType, s: Rect): (Rect, Rect)
  {
    match t
    case TwoRectangleHorizontal =>
      var half := CsDiv(s.width, 2);
      (Rect(s.x, s.y, half, s.height), Rect(s.x + half, s.y, s.width - half, s.height))
    case TwoRectangleVertical =>
      var half := CsDiv(s.height, 2);
      (Rect(s.x, s.y, s.width, half), Rect(s.x, s.y + half, s.width, s.height - half))
  }

  function FeatureHalves(feature: HaarFeature, window: Rect): (Rect, Rect)
  {
    Halves(feature.featureType, ScaledRect(feature.featureRect, window))
  }

  predicate FeatureDefined(feature: HaarFeature, source: SumSource, window: Rect)
    reads source.grid
  {
    var (first, second) := FeatureHalves(feature, window);
    SumDefined(source, first) && SumDefined(source, second)
  }

  /** `ComputeFeature`: the sum over the first half minus the sum over the second. */
  function ComputeFeature(feature: HaarFeature, source: SumSource, window: Rect): real
    reads source.grid
    requires FeatureDefined(feature, source, window)
  {
    var (first, second) := FeatureHalves(feature, window);
    (Sum(source, first) - Sum(source, second)) as real
  }

  // ----- Stages and the cascade, specified -----

  predicate FeaturesDefined(features: seq<HaarFeature>, source: SumSource, window: Rect)
    reads source.grid
  {
    forall i {:trigger FeatureDefined(features[i], source, window)} :: 0 <= i < |features| ==> FeatureDefined(features[i], source, window)
  }

  predicate CascadeDefined(stages: seq<HaarStage>, source: SumSource, window: Rect)
    reads source.grid
  {
    forall s :: 0 <= s < |stages| ==> FeaturesDefined(stages[s].features, source, window)
  }

  /** The values of a stage's features on the window, in order. */
  function FeatureValues(features: seq<HaarFeature>, source: SumSource, window: Rect): seq<real>
    reads source.grid
    requires FeaturesDefined(features, source, window)
  {
    ValuesFrom(features, 0, source, window)
  }

  function ValuesFrom(features: seq<HaarFeature>, k: nat, source: SumSource, window: Rect): (vs: seq<real>)
    reads source.grid
    requires k <= |features| && FeaturesDefined(features, source, window)
    ensures |vs| == |features| - k
    decreases |features| - k, 1
  {
    if k == |features| then [] else ValuesFromNext(features, k, source, window)
  }

  function ValuesFromNext(features: seq<HaarFeature>, k: nat, source: SumSource, window: Rect): (vs: seq<real>)
    reads source.grid
    requires k < |features| && FeaturesDefined(features, source, window)
    ensures |vs| == |features| - k
    decreases |features| - k, 0
  {
    [ComputeFeature(features[k], source, window)] + ValuesFrom(features, k + 1, source, window)
  }

  /** The `j`-th value is the value of the `j`-th feature. */
  lemma ValuesAt(features: seq<HaarFeature>, source: SumSource, window: Rect, j: nat)
    requires FeaturesDefined(features, source, window) && j < |features|
    ensures |FeatureValues(features, source, window)| == |features|
    ensures FeatureValues(features, source, window)[j] == ComputeFeature(features[j], source, window)
  {
    ValuesFromAt(features, 0, source, window, j);
  }

  lemma {:induction false} ValuesFromAt(features: seq<HaarFeature>, k: nat, source: SumSource, window: Rect, j: nat)
    requires FeaturesDefined(features, source, window) && k <= j < |features|
    ensures ValuesFrom(features, k, source, window)[j - k] == ComputeFeature(features[j], source, window)
    decreases j - k
  {
    if j > k {
      ValuesFromAt(features, k + 1, source, window, j);
    }
  }

  function Weights(features: seq<HaarFeature>): seq<real>
  {
    seq(|features|, i requires 0 <= i < |features| => features[i].weight)
  }

  /** `values[0] * weights[0] + … `, added up in order. */
  function WeightedSum(values: seq<real>, weights: seq<real>): real
    requires |values| == |weights|
    decreases |values|
  {
    if |values| == 0 then 0.0
    else WeightedSum(values[..|values| - 1], weights[..|values| - 1]) + values[|values| - 1] * weights[|values| - 1]
  }

  /** Adding the term at `i`, `value * weight`, to the sum `sum` of the prefix before it. */
  lemma WeightedSumStep(values: seq<real>, weights: seq<real>, i: int, sum: real, value: real, weight: real)
    requires |values| == |weights| && 0 <= i < |values|
    requires sum == WeightedSum(values[..i], weights[..i]) && value == values[i] && weight == weights[i]
    ensures WeightedSum(values[..i + 1], weights[..i + 1]) == sum + value * weight
  {
    assert values[..i + 1][..i] == values[..i];
    assert weights[..i + 1][..i] == weights[..i];
  }

  /** The weighted sum `Σ value · weight` of a stage's features, in order. */
  function StageSum(features: seq<HaarFeature>, source: SumSource, window: Rect): real
    reads source.grid
    requires FeaturesDefined(features, source, window)
  {
    WeightedSum(FeatureValues(features, source, window), Weights(features))
  }

  /** Every feature reaches its own threshold. */
  predicate FeaturesPass(features: seq<HaarFeature>, source: SumSource, window: Rect)
    reads source.grid
    requires FeaturesDefined(features, source, window)
  {
    var values := FeatureValues(features, source, window);
    forall i :: 0 <= i < |features| ==> values[i] >= features[i].threshold
  }

  predicate StagePasses(stage: HaarStage, source: SumSource, window: Rect)
    reads source.grid
    requires FeaturesDefined(stage.features, source, window)
  {
    FeaturesPass(stage.features, source, window) && StageSum(stage.features, source, window) >= stage.stageThreshold
  }

  /** The window passes every stage. */
  predicate Accepts(stages: seq<HaarStage>, source: SumSource, window: Rect)
    reads source.grid
    requires CascadeDefined(stages, source, window)
  {
    forall s :: 0 <= s < |stages| ==> StagePasses(stages[s], source, window)
  }

  // ----- Features of the base window stay inside the scaled window -----

  /**
   * A feature the search can evaluate on any window: its rectangle lies
   * inside the base window and the side it is cut along has at least two
   * pixels, so both halves keep at least one.
   */
  predicate FeatureInBase(feature: HaarFeature)
  {
    var r := feature.featureRect;
    0 <= r.x && 0 <= r.y && 1 <= r.width && 1 <= r.height &&
    r.x + r.width <= BaseSize && r.y + r.height <= BaseSize &&
    (feature.featureType == TwoRectangleHorizontal ==> r.width >= 2) &&
    (feature.featureType == TwoRectangleVertical ==> r.height >= 2)
  }

  predicate WellFormed(stages: seq<HaarStage>)
  {
    forall s, i :: 0 <= s < |stages| && 0 <= i < |stages[s].features| ==> FeatureInBase(stages[s].features[i])
  }

  /** A window of at least the base size that lies inside the image. */
  predicate WindowInside(window: Rect, imageWidth: int, imageHeight: int)
  {
    BaseSize <= window.width && BaseSize <= window.height && Inside(window, imageWidth, imageHeight)
  }

  lemma DemoStagesWellFormed()
    ensures WellFormed(DemoStages())
  {
  }

  /**
   * One axis of a scaled feature: the offset stays non-negative, the length
   * does not shrink, and offset plus length stay inside the window side.
   */
  lemma ScaledAxisWithin(v: int, len: int, size: int)
    requires 0 <= v && 1 <= len && v + len <= BaseSize && BaseSize <= size
    ensures 0 <= ScaledAxis(v, size) && len <= ScaledAxis(len, size)
    ensures ScaledAxis(v, size) + ScaledAxis(len, size) <= size
  {
    var a, b := v * size, len * size;
    assert 0 <= a;
    assert len * BaseSize <= b;
    assert a + b == (v + len) * size <= BaseSize * size;
  }

  /** A feature in the base window, scaled to a window inside the image, lies inside the window. */
  lemma ScaledInside(feature: HaarFeature, window: Rect, imageWidth: int, imageHeight: int)
    requires FeatureInBase(feature) && WindowInside(window, imageWidth, imageHeight)
    ensures var s := ScaledRect(feature.featureRect, window);
      Inside(s, imageWidth, imageHeight) &&
      window.x <= s.x && s.x + s.width <= window.x + window.width &&
      window.y <= s.y && s.y + s.height <= window.y + window.height &&
      feature.featureRect.width <= s.width && feature.featureRect.height <= s.height
  {
    var r := feature.featureRect;
    ScaledAxisWithin(r.x, r.width, window.width);
    ScaledAxisWithin(r.y, r.height, window.height);
  }

  /**
   * The halves of a rectangle inside the image: both are inside, they sit
   * next to each other, their sizes along the cut differ by at most one,
   * and together they cover the rectangle, so their sums add up to its sum.
   */
  lemma HalvesPartition(src: array2<int>, t: HaarFeatureType, s: Rect)
    requires Inside(s, src.Length0, src.Length1)
    requires t == TwoRectangleHorizontal ==> s.width >= 2
    requires t == TwoRectangleVertical ==> s.height >= 2
    ensures var (a, b) := Halves(t, s);
      Inside(a, src.Length0, src.Length1) && Inside(b, src.Length0, src.Length1) &&
      RectBlockSum(src, a) + RectBlockSum(src, b) == RectBlockSum(src, s)
    ensures var (a, b) := Halves(t, s);
      match t
      case TwoRectangleHorizontal =>
        a.x == s.x && b.x == a.x + a.width && a.width <= b.width <= a.width + 1 &&
        a.y == b.y == s.y && a.height == b.height == s.height
      case TwoRectangleVertical =>
        a.y == s.y && b.y == a.y + a.height && a.height <= b.height <= a.height + 1 &&
        a.x == b.x == s.x && a.width == b.width == s.width
  {
    match t
    case TwoRectangleHorizontal =>
      var half := CsDiv(s.width, 2);
      BlockSumSplitX(src, s.x, s.x + half, s.x + s.width, s.y, s.y + s.height);
    case TwoRectangleVertical =>
      var half := CsDiv(s.height, 2);
      BlockSumSplitY(src, s.x, s.x + s.width, s.y, s.y + half, s.y + s.height);
  }

  /**
   * The value of a feature of the base window on a window inside the image:
   * the sum of the first half of the scaled rectangle minus the sum of the
   * second, where the two halves cover the scaled rectangle; read from the
   * summed-area table it is the same value.
   */
  lemma FeatureIsHalfDifference(feature: HaarFeature, integral: array2<int>, src: array2<int>, window: Rect)
    requires IsIntegralOf(integral, src) && FeatureInBase(feature) && WindowInside(window, src.Length0, src.Length1)
    ensures FeatureDefined(feature, Table(integral), window) && FeatureDefined(feature, Image(src), window)
    ensures var (a, b) := FeatureHalves(feature, window);
      var s := ScaledRect(feature.featureRect, window);
      Inside(s, src.Length0, src.Length1) &&
      RectBlockSum(src, a) + RectBlockSum(src, b) == RectBlockSum(src, s) &&
      ComputeFeature(feature, Table(integral), window) == ComputeFeature(feature, Image(src), window) &&
      ComputeFeature(feature, Image(src), window) == (RectBlockSum(src, a) - RectBlockSum(src, b)) as real
  {
    var s := ScaledRect(feature.featureRect, window);
    ScaledInside(feature, window, src.Length0, src.Length1);
    HalvesPartition(src, feature.featureType, s);
    var (a, b) := Halves(feature.featureType, s);
    SumOfTableIsSumOfImage(integral, src, a);
    SumOfTableIsSumOfImage(integral, src, b);
  }

  /** The feature values read from the table equal those read from the image. */
  lemma StageSumOfTable(features: seq<HaarFeature>, integral: array2<int>, src: array2<int>, window: Rect)
    requires IsIntegralOf(integral, src) && WindowInside(window, src.Length0, src.Length1)
    requires forall i :: 0 <= i < |features| ==> FeatureInBase(features[i])
    ensures FeaturesDefined(features, Table(integral), window) && FeaturesDefined(features, Image(src), window)
    ensures FeatureValues(features, Table(integral), window) == FeatureValues(features, Image(src), window)
  {
    forall i | 0 <= i < |features|
      ensures FeatureDefined(features[i], Table(integral), window) && FeatureDefined(features[i], Image(src), window)
      ensures ComputeFeature(features[i], Table(integral), window) == ComputeFeature(features[i], Image(src), window)
    {
      FeatureIsHalfDifference(features[i], integral, src, window);
    }
    var t, m := FeatureValues(features, Table(integral), window), FeatureValues(features, Image(src), window);
    assert |t| == |m| == |features|;
    forall i | 0 <= i < |features|
      ensures t[i] == m[i]
    {
      ValuesAt(features, Table(integral), window, i);
      ValuesAt(features, Image(src), window, i);
    }
  }

  /**
   * On a window inside the image a well-formed cascade can be evaluated on
   * the summed-area table, and it accepts there exactly when it accepts on
   * the image.
   */
  lemma AcceptsOfTable(stages: seq<HaarStage>, integral: array2<int>, src: array2<int>, window: Rect)
    requires WellFormed(stages) && IsIntegralOf(integral, src) && WindowInside(window, src.Length0, src.Length1)
    ensures CascadeDefined(stages, Table(integral), window) && CascadeDefined(stages, Image(src), window)
    ensures Accepts(stages, Table(integral), window) == Accepts(stages, Image(src), window)
  {
    forall s | 0 <= s < |stages|
      ensures FeaturesDefined(stages[s].features, Table(integral), window)
      ensures FeaturesDefined(stages[s].features, Image(src), window)
      ensures StagePasses(stages[s], Table(integral), window) == StagePasses(stages[s], Image(src), window)
    {
      StageSumOfTable(stages[s].features, integral, src, window);
    }
  }

  /** The sum of the first `width / 2` columns of a window minus the sum of the other columns. */
  function LeftMinusRight(src: array2<int>, window: Rect): int
    reads src
    requires WindowInside(window, src.Length0, src.Length1)
  {
    var half := CsDiv(window.width, 2);
    RectBlockSum(src, Rect(window.x, window.y, half, window.height)) -
    RectBlockSum(src, Rect(window.x + half, window.y, window.width - half, window.height))
  }

  /**
   * What the fixed cascade decides: a window of at least the base size
   * inside the image passes exactly when the sum of its left half (the
   * first `width / 2` columns) exceeds the sum of its right half by at least
   * 1000.
   */
  lemma DemoAccepts(src: array2<int>, window: Rect)
    requires WindowInside(window, src.Length0, src.Length1)
    ensures CascadeDefined(DemoStages(), Image(src), window)
    ensures Accepts(DemoStages(), Image(src), window) <==> LeftMinusRight(src, window) >= 1000
  {
    var v := DemoFeatureValue(src, window);
    SingleFeatureStage(DemoFeature(), 0.5, Image(src), window);
    var stages := DemoStages();
    assert stages[0] == HaarStage([DemoFeature()], 0.5);
    assert Accepts(stages, Image(src), window) <==> StagePasses(stages[0], Image(src), window);
    assert v * 1.0 == v;
  }

  /** On the image, the demo feature's value is the left half's sum minus the right half's. */
  lemma DemoFeatureValue(src: array2<int>, window: Rect) returns (v: real)
    requires WindowInside(window, src.Length0, src.Length1)
    ensures FeatureDefined(DemoFeature(), Image(src), window)
    ensures v == ComputeFeature(DemoFeature(), Image(src), window) == LeftMinusRight(src, window) as real
  {
    WholeBaseScales(window.width);
    WholeBaseScales(window.height);
    assert ScaledRect(Rect(0, 0, 24, 24), window) == window;
    HalvesPartition(src, TwoRectangleHorizontal, window);
    v := ComputeFeature(DemoFeature(), Image(src), window);
  }

  /**
   * A stage of one feature passes exactly when the feature reaches its own
   * threshold and its weighted value reaches the stage threshold.
   */
  lemma SingleFeatureStage(feature: HaarFeature, stageThreshold: real, source: SumSource, window: Rect)
    requires FeatureDefined(feature, source, window)
    ensures FeaturesDefined([feature], source, window)
    ensures var v := ComputeFeature(feature, source, window);
      StagePasses(HaarStage([feature], stageThreshold), source, window) <==>
        v >= feature.threshold && v * feature.weight >= stageThreshold
  {
    var features := [feature];
    assert features[0] == feature;
    ValuesAt(features, source, window, 0);
    var values := FeatureValues(features, source, window);
    var weights := Weights(features);
    WeightedSumStep(values, weights, 0, 0.0, values[0], feature.weight);
    assert values[..1] == values && weights[..1] == weights;
  }

  /** The whole base side scales to the whole window side, and offset 0 stays 0. */
  lemma WholeBaseScales(size: int)
    ensures ScaledAxis(0, size) == 0 && ScaledAxis(BaseSize, size) == size
  {
    assert 0 * size == 0;
  }

  // ----- The search, specified -----

  /** The cascade accepts the window, with its rectangle sums read from the image itself. */
  predicate Accepted(stages: seq<HaarStage>, src: array2<int>, window: Rect)
    reads src
  {
    CascadeDefined(stages, Image(src), window) && Accepts(stages, Image(src), window)
  }

  /** The detections from pass `k`, row `y` and column `x` on, in the order the loops make them. */
  function ScanFrom(stages: seq<HaarStage>, src: array2<int>, f: real, k: nat, y: int, x: int): seq<D.Hit>
    reads src
    requires f > 1.0
    decreases D.LevelBound(src.Length0, f) - k, src.Length1 - y, src.Length0 - x, 1
  {
    ScanAt(stages, src, f, k, y, x)
  }

  /** One step of the loops at pass `k`, row `y`, column `x`: the body of `ScanFrom`. */
  function ScanAt(stages: seq<HaarStage>, src: array2<int>, f: real, k: nat, y: int, x: int): seq<D.Hit>
    reads src
    requires f > 1.0
    decreases D.LevelBound(src.Length0, f) - k, src.Length1 - y, src.Length0 - x, 0
  {
    var size := D.WindowSize(BaseSize, f, k);
    D.WindowSizeGrows(BaseSize, f, k, k);
    if !(size <= src.Length0 && size <= src.Length1) then []
    else if y > src.Length1 - size then
      D.FitsBelowBound(BaseSize, f, k, src.Length0);
      ScanFrom(stages, src, f, k + 1, 0, 0)
    else if x > src.Length0 - size then
      ScanFrom(stages, src, f, k, y + Step, 0)
    else
      var window := Rect(x, y, size, size);
      (if Accepted(stages, src, window) then [D.Hit(k, window)] else []) + ScanFrom(stages, src, f, k, y, x + Step)
  }

  /**
   * `h` is a window the search visits: its pass fits the image, it is the
   * square of that pass's size, and its row and column are multiples of the
   * step that leave the window inside the image.
   */
  predicate Visited(imageWidth: int, imageHeight: int, f: real, h: D.Hit)
  {
    var size := D.WindowSize(BaseSize, f, h.level);
    size <= imageWidth && size <= imageHeight &&
    h.rect.width == size && h.rect.height == size &&
    h.rect.y <= imageHeight - size && D.Reached(h.rect.y, Step) &&
    h.rect.x <= imageWidth - size && D.Reached(h.rect.x, Step)
  }

  // ----- Properties of the search -----

  /** Every detection is a visited window that the cascade accepts, at or after the start position. */
  lemma {:induction false} ScanFromSound(stages: seq<HaarStage>, src: array2<int>, f: real, k: nat, y: int, x: int)
    requires f > 1.0 && D.Reached(y, Step) && D.Reached(x, Step)
    ensures forall h :: h in ScanFrom(stages, src, f, k, y, x) ==>
      Visited(src.Length0, src.Length1, f, h) && Accepted(stages, src, h.rect) && D.NotBefore(h, k, y, x)
    decreases D.LevelBound(src.Length0, f) - k, src.Length1 - y, src.Length0 - x
  {
    assert ScanFrom(stages, src, f, k, y, x) == ScanAt(stages, src, f, k, y, x);
    var size := D.WindowSize(BaseSize, f, k);
    D.WindowSizeGrows(BaseSize, f, k, k);
    if !(size <= src.Length0 && size <= src.Length1) {
    } else if y > src.Length1 - size {
      D.FitsBelowBound(BaseSize, f, k, src.Length0);
      ScanFromSound(stages, src, f, k + 1, 0, 0);
    } else if x > src.Length0 - size {
      assert D.Reached(y + Step, Step);
      ScanFromSound(stages, src, f, k, y + Step, 0);
    } else {
      assert D.Reached(x + Step, Step);
      ScanFromSound(stages, src, f, k, y, x + Step);
    }
  }

  /** Every visited window that the cascade accepts, at or after the start position, is detected. */
  lemma {:induction false} ScanFromComplete(stages: seq<HaarStage>, src: array2<int>, f: real, k: nat, y: int, x: int, h: D.Hit)
    requires f > 1.0 && D.Reached(y, Step) && D.Reached(x, Step)
    requires Visited(src.Length0, src.Length1, f, h) && Accepted(stages, src, h.rect) && D.NotBefore(h, k, y, x)
    ensures h in ScanFrom(stages, src, f, k, y, x)
    decreases D.LevelBound(src.Length0, f) - k, src.Length1 - y, src.Length0 - x
  {
    assert ScanFrom(stages, src, f, k, y, x) == ScanAt(stages, src, f, k, y, x);
    var size := D.WindowSize(BaseSize, f, k);
    D.WindowSizeGrows(BaseSize, f, k, h.level);
    if !(size <= src.Length0 && size <= src.Length1) {
      assert false;
    } else if y > src.Length1 - size {
      D.FitsBelowBound(BaseSize, f, k, src.Length0);
      assert h.level > k;
      ScanFromComplete(stages, src, f, k + 1, 0, 0, h);
    } else if x > src.Length0 - size {
      if h.level == k {
        D.ReachedApart(y, h.rect.y, Step);
      }
      assert D.Reached(y + Step, Step);
      ScanFromComplete(stages, src, f, k, y + Step, 0, h);
    } else if h != D.Hit(k, Rect(x, y, size, size)) {
      if h.level == k && h.rect.y == y {
        D.ReachedApart(x, h.rect.x, Step);
      }
      assert D.Reached(x + Step, Step);
      ScanFromComplete(stages, src, f, k, y, x + Step, h);
    }
  }

  /** The detections come out strictly in scan order: by pass, then row, then column. */
  lemma {:induction false} ScanFromSorted(stages: seq<HaarStage>, src: array2<int>, f: real, k: nat, y: int, x: int)
    requires f > 1.0 && D.Reached(y, Step) && D.Reached(x, Step)
    ensures D.Sorted(ScanFrom(stages, src, f, k, y, x))
    decreases D.LevelBound(src.Length0, f) - k, src.Length1 - y, src.Length0 - x
  {
    assert ScanFrom(stages, src, f, k, y, x) == ScanAt(stages, src, f, k, y, x);
    var size := D.WindowSize(BaseSize, f, k);
    D.WindowSizeGrows(BaseSize, f, k, k);
    if !(size <= src.Length0 && size <= src.Length1) {
    } else if y > src.Length1 - size {
      D.FitsBelowBound(BaseSize, f, k, src.Length0);
      ScanFromSorted(stages, src, f, k + 1, 0, 0);
    } else if x > src.Length0 - size {
      assert D.Reached(y + Step, Step);
      ScanFromSorted(stages, src, f, k, y + Step, 0);
    } else {
      assert D.Reached(x + Step, Step);
      ScanFromSorted(stages, src, f, k, y, x + Step);
      ScanFromSound(stages, src, f, k, y, x + Step);
      var window := Rect(x, y, size, size);
      if Accepted(stages, src, window) {
        D.SortedCons(D.Hit(k, window), ScanFrom(stages, src, f, k, y, x + Step));
      }
    }
  }

  /**
   * The search from its start: a window is detected exactly when it is a
   * visited window that the cascade accepts, and the detections are in scan
   * order.
   */
  lemma DetectionsAreAcceptedWindows(stages: seq<HaarStage>, src: array2<int>, f: real, h: D.Hit)
    requires f > 1.0
    ensures h in ScanFrom(stages, src, f, 0, 0, 0) <==> Visited(src.Length0, src.Length1, f, h) && Accepted(stages, src, h.rect)
    ensures D.Sorted(ScanFrom(stages, src, f, 0, 0, 0))
  {
    ScanFromSound(stages, src, f, 0, 0, 0);
    if Visited(src.Length0, src.Length1, f, h) && Accepted(stages, src, h.rect) {
      ScanFromComplete(stages, src, f, 0, 0, 0, h);
    }
    ScanFromSorted(stages, src, f, 0, 0, 0);
  }

  /** A visited window is a square of at least the base size inside the image. */
  lemma VisitedIsInside(imageWidth: int, imageHeight: int, f: real, h: D.Hit)
    requires f > 1.0 && Visited(imageWidth, imageHeight, f, h)
    ensures WindowInside(h.rect, imageWidth, imageHeight) && h.rect.width == h.rect.height
  {
    D.WindowSizeGrows(BaseSize, f, h.level, h.level);
  }

  /**
   * The fixed cascade's detections from the start: exactly the visited
   * windows whose left half outweighs their right half by at least 1000.
   */
  lemma DemoDetections(src: array2<int>, f: real, h: D.Hit)
    requires f > 1.0
    ensures h in ScanFrom(DemoStages(), src, f, 0, 0, 0) <==>
      Visited(src.Length0, src.Length1, f, h) && WindowInside(h.rect, src.Length0, src.Length1) &&
      LeftMinusRight(src, h.rect) >= 1000
  {
    DetectionsAreAcceptedWindows(DemoStages(), src, f, h);
    if Visited(src.Length0, src.Length1, f, h) {
      VisitedIsInside(src.Length0, src.Length1, f, h);
      DemoAccepts(src, h.rect);
    }
  }

  // ----- The loops' steps -----

  /** `size` is the window side of pass `k` and the window fits the image. */
  predicate PassSize(src: array2<int>, f: real, k: nat, size: int)
    reads src
  {
    f > 1.0 && size == D.WindowSize(BaseSize, f, k) && size <= src.Length0 && size <= src.Length1
  }

  /**
   * One window of a row: the scan at column `x` is the window's hit, if the
   * cascade run on the integral image accepts it, followed by the scan at
   * the next column.
   */
  lemma WindowStep(stages: seq<HaarStage>, integral: array2<int>, src: array2<int>, f: real, k: nat, size: int, y: int, x: int)
    requires WellFormed(stages) && IsIntegralOf(integral, src) && PassSize(src, f, k, size)
    requires 0 <= y <= src.Length1 - size && Reached(x) && x <= src.Length0 - size
    ensures CascadeDefined(stages, Table(integral), Rect(x, y, size, size))
    ensures var window := Rect(x, y, size, size);
      ScanFrom(stages, src, f, k, y, x) ==
        (if Accepts(stages, Table(integral), window) then [D.Hit(k, window)] else []) +
        ScanFrom(stages, src, f, k, y, x + Step)
    ensures Reached(x + Step)
  {
    assert ScanFrom(stages, src, f, k, y, x) == ScanAt(stages, src, f, k, y, x);
    D.WindowSizeGrows(BaseSize, f, k, k);
    AcceptsOfTable(stages, integral, src, Rect(x, y, size, size));
  }

  predicate Reached(v: int)
  {
    D.Reached(v, Step)
  }

  /** The end of a row: the scan goes on at the start of the next row. */
  lemma RowEnd(stages: seq<HaarStage>, src: array2<int>, f: real, k: nat, size: int, y: int, x: int)
    requires PassSize(src, f, k, size) && Reached(y) && y <= src.Length1 - size && x > src.Length0 - size
    ensures ScanFrom(stages, src, f, k, y, x) == ScanFrom(stages, src, f, k, y + Step, 0) && Reached(y + Step)
  {
    assert ScanFrom(stages, src, f, k, y, x) == ScanAt(stages, src, f, k, y, x);
  }

  /** The end of a pass: the scan goes on with the next window size. */
  lemma PassEnd(stages: seq<HaarStage>, src: array2<int>, f: real, k: nat, size: int, y: int)
    requires PassSize(src, f, k, size) && y > src.Length1 - size
    ensures ScanFrom(stages, src, f, k, y, 0) == ScanFrom(stages, src, f, k + 1, 0, 0)
  {
    assert ScanFrom(stages, src, f, k, y, 0) == ScanAt(stages, src, f, k, y, 0);
  }

  /** A pass whose window does not fit ends the scan. */
  lemma ScanEnd(stages: seq<HaarStage>, src: array2<int>, f: real, k: nat)
    requires f > 1.0
    requires !(D.WindowSize(BaseSize, f, k) <= src.Length0 && D.WindowSize(BaseSize, f, k) <= src.Length1)
    ensures ScanFrom(stages, src, f, k, 0, 0) == []
  {
    assert ScanFrom(stages, src, f, k, 0, 0) == ScanAt(stages, src, f, k, 0, 0);
  }

  /** `currentScale *= scaleFactor` and the truncated window side `(int)(24 * currentScale)`. */
  lemma NextScale(f: real, k: nat, scale: real, next: real, size: int)
    requires scale == Pow(f, k) && next == scale * f && size == Truncate(BaseSize as real * next)
    ensures next == Pow(f, k + 1) && size == D.WindowSize(BaseSize, f, k + 1)
  {
    D.NextScale(f, k, scale, next, BaseSize, size);
  }

  // ----- The detector's methods -----

  /** `ComputeIntegralImage`: the standard summed-area table of the grey levels. */
  method ComputeIntegralImage(gray: array2<int>) returns (integral: array2<int>)
    ensures fresh(integral)
    ensures IsIntegralOf(integral, gray)
  {
    integral := ComputeStandardIntegralImage(gray);
  }

  /**
   * `PassesCascade`: stage by stage, each feature's value checked against
   * the feature's threshold (rejecting at the first that falls short) and
   * added with its weight to the stage sum, which must reach the stage
   * threshold.
   */
  method PassesCascade(stages: seq<HaarStage>, integral: array2<int>, windowX: int, windowY: int,
                       windowWidth: int, windowHeight: int) returns (passes: bool)
    requires CascadeDefined(stages, Table(integral), Rect(windowX, windowY, windowWidth, windowHeight))
    ensures passes == Accepts(stages, Table(integral), Rect(windowX, windowY, windowWidth, windowHeight))
  {
    var window := Rect(windowX, windowY, windowWidth, windowHeight);
    var s := 0;
    while s < |stages|
      invariant 0 <= s <= |stages|
      invariant forall t :: 0 <= t < s ==> StagePasses(stages[t], Table(integral), window)
    {
      var stagePasses := EvaluateStage(stages[s], integral, window);
      if !stagePasses {
        return false;
      }
      s := s + 1;
    }
    return true;
  }

  /** The body of the stage loop of `PassesCascade`: whether the window passes one stage. */
  method EvaluateStage(stage: HaarStage, integral: array2<int>, window: Rect) returns (passes: bool)
    requires FeaturesDefined(stage.features, Table(integral), window)
    ensures passes == StagePasses(stage, Table(integral), window)
  {
    var features := stage.features;
    ghost var values := FeatureValues(features, Table(integral), window);
    assert |values| == |features| by {
      if |features| > 0 {
        ValuesAt(features, Table(integral), window, 0);
      }
    }
    ghost var weights := Weights(features);
    var stageSum := 0.0;
    var i := 0;
    while i < |features|
      invariant 0 <= i <= |features|
      invariant stageSum == WeightedSum(values[..i], weights[..i])
      invariant forall j :: 0 <= j < i ==> values[j] >= features[j].threshold
    {
      var feature := features[i];
      var featureValue := FeatureValueAt(features, integral, window, i);
      if featureValue < feature.threshold {
        return false;
      }
      WeightedSumStep(values, weights, i, stageSum, featureValue, feature.weight);
      stageSum := stageSum + featureValue * feature.weight;
      i := i + 1;
    }
    assert values[..i] == values && weights[..i] == weights;
    return stageSum >= stage.stageThreshold;
  }

  /** `feature.ComputeFeature` for the feature at `i` of a stage, read from the table. */
  method FeatureValueAt(features: seq<HaarFeature>, integral: array2<int>, window: Rect, i: int) returns (featureValue: real)
    requires FeaturesDefined(features, Table(integral), window) && 0 <= i < |features|
    ensures featureValue == FeatureValues(features, Table(integral), window)[i]
  {
    featureValue := ComputeFeature(features[i], Table(integral), window);
    ValuesAt(features, Table(integral), window, i);
  }

  /** One row of one pass of `DetectObjects`: the windows at `x = 0, 4, …` while `x <= W - size`. */
  method ScanRow(stages: seq<HaarStage>, integral: array2<int>, gray: array2<int>, ghost f: real, ghost k: nat,
                 windowWidth: int, windowHeight: int, y: int) returns (found: seq<Rect>)
    requires WellFormed(stages) && IsIntegralOf(integral, gray) && PassSize(gray, f, k, windowWidth)
    requires windowHeight == windowWidth && Reached(y) && y <= gray.Length1 - windowHeight
    ensures D.Rects(ScanFrom(stages, gray, f, k, y, 0)) == found + D.Rects(ScanFrom(stages, gray, f, k, y + Step, 0))
  {
    found := [];
    var x := 0;
    while x <= gray.Length0 - windowWidth
      invariant Reached(x)
      invariant D.Rects(ScanFrom(stages, gray, f, k, y, 0)) == found + D.Rects(ScanFrom(stages, gray, f, k, y, x))
      decreases gray.Length0 - windowWidth - x
    {
      WindowStep(stages, integral, gray, f, k, windowWidth, y, x);
      var accepted := PassesCascade(stages, integral, x, y, windowWidth, windowHeight);
      var window := Rect(x, y, windowWidth, windowHeight);
      ghost var before := found;
      if accepted {
        found := found + [window];
      }
      D.Advance(D.Rects(ScanFrom(stages, gray, f, k, y, 0)), before, found,
                ScanFrom(stages, gray, f, k, y, x), ScanFrom(stages, gray, f, k, y, x + Step), accepted, D.Hit(k, window));
      x := x + Step;
    }
    RowEnd(stages, gray, f, k, windowWidth, y, x);
  }

  /** One pass of `DetectObjects`: the rows at `y = 0, 4, …` while `y <= H - size`. */
  method ScanLevel(stages: seq<HaarStage>, integral: array2<int>, gray: array2<int>, ghost f: real, ghost k: nat,
                   windowWidth: int, windowHeight: int) returns (found: seq<Rect>)
    requires WellFormed(stages) && IsIntegralOf(integral, gray) && PassSize(gray, f, k, windowWidth)
    requires windowHeight == windowWidth
    ensures D.Rects(ScanFrom(stages, gray, f, k, 0, 0)) == found + D.Rects(ScanFrom(stages, gray, f, k + 1, 0, 0))
  {
    found := [];
    var y := 0;
    while y <= gray.Length1 - windowHeight
      invariant Reached(y)
      invariant D.Rects(ScanFrom(stages, gray, f, k, 0, 0)) == found + D.Rects(ScanFrom(stages, gray, f, k, y, 0))
      decreases gray.Length1 - windowHeight - y
    {
      var row := ScanRow(stages, integral, gray, f, k, windowWidth, windowHeight, y);
      D.Regroup(D.Rects(ScanFrom(stages, gray, f, k, 0, 0)), found, D.Rects(ScanFrom(stages, gray, f, k, y, 0)), row,
                D.Rects(ScanFrom(stages, gray, f, k, y + Step, 0)));
      found := found + row;
      y := y + Step;
    }
    PassEnd(stages, gray, f, k, windowWidth, y);
  }

  /**
   * The detector object: the cascade `_stages` that its constructor fixes
   * and the search that uses it.
   */
  class HaarObjectDetector {
    var stages: seq<HaarStage>

    ghost predicate Valid()
      reads this
    {
      WellFormed(stages)
    }

    /** The constructor: one stage with one horizontal two-rectangle feature over the whole base window. */
    constructor ()
      ensures stages == DemoStages() && Valid()
    {
      stages := DemoStages();
      new;
      DemoStagesWellFormed();
    }

    /**
     * `DetectObjects` over the grey levels of the image: the detections are
     * the rectangles of the scan from its start, in order.
     */
    method DetectObjects(gray: array2<int>, scaleFactor: real) returns (detections: seq<Rect>)
      requires Valid() && scaleFactor > 1.0
      ensures detections == D.Rects(ScanFrom(stages, gray, scaleFactor, 0, 0, 0))
    {
      detections := [];
      var integral := ComputeIntegralImage(gray);
      var width := gray.Length0;
      var height := gray.Length1;
      var baseWidth := BaseSize;
      var baseHeight := BaseSize;
      var currentScale := 1.0;
      var windowWidth := baseWidth;
      var windowHeight := baseHeight;
      ghost var f := scaleFactor;
      ghost var k: nat := 0;
      D.WindowSizeAtStart(BaseSize, f);
      while windowWidth <= width && windowHeight <= height
        invariant IsIntegralOf(integral, gray)
        invariant currentScale == Pow(f, k)
        invariant windowWidth == D.WindowSize(BaseSize, f, k) && windowHeight == windowWidth
        invariant D.Rects(ScanFrom(stages, gray, f, 0, 0, 0)) == detections + D.Rects(ScanFrom(stages, gray, f, k, 0, 0))
        decreases D.LevelBound(width, f) - k
      {
        D.FitsBelowBound(BaseSize, f, k, width);
        var found := ScanLevel(stages, integral, gray, f, k, windowWidth, windowHeight);
        D.Regroup(D.Rects(ScanFrom(stages, gray, f, 0, 0, 0)), detections, D.Rects(ScanFrom(stages, gray, f, k, 0, 0)), found,
                  D.Rects(ScanFrom(stages, gray, f, k + 1, 0, 0)));
        detections := detections + found;
        ghost var scale := currentScale;
        currentScale := currentScale * scaleFactor;
        windowWidth := Truncate(BaseSize as real * currentScale);
        NextScale(f, k, scale, currentScale, windowWidth);
        windowHeight := Truncate(BaseSize as real * currentScale);
        k := k + 1;
      }
      ScanEnd(stages, gray, f, k);
    }
  }
}
