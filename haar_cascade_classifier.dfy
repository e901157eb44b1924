/**
 * `HaarCascadeClassifier.cs`: a boosted cascade read from an OpenCV-style
 * cascade document (stages of weak classifiers, a `<features>` list), and its
 * evaluation on one detection window over a summed-area table.
 */
module HaarCascadeClassifier {
  import opened Wrappers
  import opened XmlTree
  import opened CsNumerics
  import opened IntegralHelper

  // ----- Data model -----

  datatype HaarRectangle = HaarRectangle(x: int, y: int, width: int, height: int, weight: real)

  /** `Tilted` stays at its default `false`: nothing in this file sets it. */
  datatype HaarFeature = HaarFeature(rectangles: seq<HaarRectangle>, tilted: bool)

  datatype HaarWeakClassifier = HaarWeakClassifier(internalNodes: seq<real>, leafValues: seq<real>, feature: HaarFeature)

  datatype HaarStage = HaarStage(stageThreshold: real, weakClassifiers: seq<HaarWeakClassifier>)

  datatype Classifier = Classifier(
    cascadeName: string, stageType: Option<string>, featureType: Option<string>,
    baseWidth: int, baseHeight: int, stages: seq<HaarStage>)

  /** The exceptions `ParseCascadeFromXDocument` can raise. */
  datatype ParseError =
    | NoCascadeElement              // the explicit "No cascade element found" exception
    | MissingElement(name: string)  // a NullReferenceException on an absent element
    | InvalidNumber(text: string)   // a FormatException or OverflowException from a Parse
    | FeatureIndexOutOfRange(index: nat)  // ElementAt past the end of <features>

  // ----- Evaluation on one window -----

  /** A detection window and the cascade's base size that its rectangles are scaled from. */
  datatype Placement = Placement(window: Rect, baseWidth: int, baseHeight: int)

  predicate ValidPlacement(p: Placement)
  {
    p.baseWidth > 0 && p.baseHeight > 0
  }

  /**
   * `rect` scaled from the base window to the detection window:
   * `(wx + round(X sx), wy + round(Y sy), round(W sx), round(H sy))` with
   * `sx = ww / baseW`, `sy = wh / baseH` and `Math.Round`.
   */
  function ScaledRect(rect: HaarRectangle, p: Placement): Rect
    requires ValidPlacement(p)
  {
    var sx := p.window.width as real / p.baseWidth as real;
    var sy := p.window.height as real / p.baseHeight as real;
    Rect(p.window.x + RoundScaled(rect.x, sx), p.window.y + RoundScaled(rect.y, sy),
         RoundScaled(rect.width, sx), RoundScaled(rect.height, sy))
  }

  /** `(int)Math.Round(v * scale)`. */
  function RoundScaled(v: int, scale: real): int
  {
    RoundHalfEven(v as real * scale)
  }

  /** At the base size the rectangles are only moved to the window's origin. */
  lemma ScaledRectAtBaseSize(rect: HaarRectangle, p: Placement)
    requires ValidPlacement(p) && p.window.width == p.baseWidth && p.window.height == p.baseHeight
    ensures ScaledRect(rect, p) == Rect(p.window.x + rect.x, p.window.y + rect.y, rect.width, rect.height)
  {
    assert p.window.width as real / p.baseWidth as real == 1.0;
    assert p.window.height as real / p.baseHeight as real == 1.0;
  }

  /** A rectangle of a feature placed on the window: its image coordinates and its weight. */
  datatype PlacedRect = PlacedRect(rect: Rect, weight: real)

  /** The feature's rectangles scaled to the window, in order. */
  function Placed(rects: seq<HaarRectangle>, p: Placement): seq<PlacedRect>
    requires ValidPlacement(p)
  {
    PlacedFrom(rects, 0, p)
  }

  function PlacedFrom(rects: seq<HaarRectangle>, k: nat, p: Placement): (ws: seq<PlacedRect>)
    requires k <= |rects| && ValidPlacement(p)
    ensures |ws| == |rects| - k
    decreases |rects| - k, 1
  {
    if k == |rects| then [] else PlacedFromNext(rects, k, p)
  }

  function PlacedFromNext(rects: seq<HaarRectangle>, k: nat, p: Placement): (ws: seq<PlacedRect>)
    requires k < |rects| && ValidPlacement(p)
    ensures |ws| == |rects| - k
    decreases |rects| - k, 0
  {
    [PlacedRect(ScaledRect(rects[k], p), rects[k].weight)] + PlacedFrom(rects, k + 1, p)
  }

  /** The `j`-th placed rectangle is the `j`-th rectangle, scaled, with its weight. */
  lemma PlacedAt(rects: seq<HaarRectangle>, p: Placement, j: nat)
    requires ValidPlacement(p) && j < |rects|
    ensures Placed(rects, p)[j] == PlacedRect(ScaledRect(rects[j], p), rects[j].weight)
  {
    PlacedFromAt(rects, 0, p, j);
  }

  lemma {:induction false} PlacedFromAt(rects: seq<HaarRectangle>, k: nat, p: Placement, j: nat)
    requires ValidPlacement(p) && k <= j < |rects|
    ensures PlacedFrom(rects, k, p)[j - k] == PlacedRect(ScaledRect(rects[j], p), rects[j].weight)
    decreases j - k
  {
    if j > k {
      PlacedFromAt(rects, k + 1, p, j);
    }
  }

  predicate SumsDefined(ws: seq<PlacedRect>, source: SumSource)
    reads source.grid
  {
    forall k :: 0 <= k < |ws| ==> SumDefined(source, ws[k].rect)
  }

  /** `Σ weight · sum` over the first `n` placed rectangles, in order. */
  function WeightedSum(ws: seq<PlacedRect>, n: nat, source: SumSource): real
    reads source.grid
    requires n <= |ws| && SumsDefined(ws, source)
  {
    if n == 0 then 0.0
    else WeightedSum(ws, n - 1, source) + ws[n - 1].weight * Sum(source, ws[n - 1].rect) as real
  }

  predicate FeatureDefined(rects: seq<HaarRectangle>, source: SumSource, p: Placement)
    reads source.grid
  {
    ValidPlacement(p) && SumsDefined(Placed(rects, p), source)
  }

  /** `Σ weight · SumRectangle(scaled rectangle)` over the rectangles, in order. */
  function FeatureValue(rects: seq<HaarRectangle>, source: SumSource, p: Placement): real
    reads source.grid
    requires FeatureDefined(rects, source, p)
  {
    WeightedSum(Placed(rects, p), |rects|, source)
  }

  /** `HaarFeature.Evaluate`: the weighted sum, accumulated rectangle by rectangle. */
  method EvaluateFeature(feature: HaarFeature, integral: array2<int>, p: Placement) returns (sum: real)
    requires FeatureDefined(feature.rectangles, Table(integral), p)
    ensures sum == FeatureValue(feature.rectangles, Table(integral), p)
  {
    var rects := feature.rectangles;
    ghost var placed := Placed(rects, p);
    sum := 0.0;
    var k := 0;
    while k < |rects|
      invariant 0 <= k <= |rects|
      invariant sum == WeightedSum(placed, k, Table(integral))
    {
      var rect := rects[k];
      PlacedAt(rects, p, k);
      var scaled := ScaledRect(rect, p);
      var rectSum := SumRectangle(integral, scaled.x, scaled.y, scaled.width, scaled.height);
      sum := sum + rect.weight * rectSum as real;
      k := k + 1;
    }
  }

  /** The stump threshold: `InternalNodes[2]` when there are at least three nodes, else 0. */
  function Threshold(weak: HaarWeakClassifier): real
  {
    if |weak.internalNodes| >= 3 then weak.internalNodes[2] else 0.0
  }

  /** The leaf `Evaluate` reads exists for this feature value. */
  predicate LeafDefined(weak: HaarWeakClassifier, featureValue: real)
  {
    if featureValue < Threshold(weak) then |weak.leafValues| >= 1 else |weak.leafValues| >= 2
  }

  /** The two-way choice of `HaarWeakClassifier.Evaluate`. */
  function Leaf(weak: HaarWeakClassifier, featureValue: real): real
    requires LeafDefined(weak, featureValue)
  {
    if featureValue < Threshold(weak) then weak.leafValues[0] else weak.leafValues[1]
  }

  /**
   * The stump picks `LeafValues[0]` exactly when the feature value is below
   * the threshold; a value equal to the threshold picks `LeafValues[1]`.
   */
  lemma LeafChoice(weak: HaarWeakClassifier, featureValue: real)
    requires |weak.leafValues| >= 2
    ensures LeafDefined(weak, featureValue)
    ensures featureValue < Threshold(weak) ==> Leaf(weak, featureValue) == weak.leafValues[0]
    ensures featureValue >= Threshold(weak) ==> Leaf(weak, featureValue) == weak.leafValues[1]
    ensures |weak.internalNodes| < 3 ==> (Leaf(weak, featureValue) == weak.leafValues[0] <== featureValue < 0.0)
  {
  }

  predicate WeakDefined(weak: HaarWeakClassifier, source: SumSource, p: Placement)
    reads source.grid
  {
    FeatureDefined(weak.feature.rectangles, source, p) &&
    LeafDefined(weak, FeatureValue(weak.feature.rectangles, source, p))
  }

  /** The vote of one weak classifier on the window. */
  function Vote(weak: HaarWeakClassifier, source: SumSource, p: Placement): real
    reads source.grid
    requires WeakDefined(weak, source, p)
  {
    Leaf(weak, FeatureValue(weak.feature.rectangles, source, p))
  }

  /** The exception evaluation raises once every rectangle sum is defined: a leaf index past the end of `LeafValues`. */
  datatype EvalError = LeafIndexOutOfRange

  /**
   * `HaarWeakClassifier.Evaluate`: the vote, or the index error of reading
   * `LeafValues[0]` of an empty list or `LeafValues[1]` of a one-element list.
   */
  method EvaluateWeak(weak: HaarWeakClassifier, integral: array2<int>, p: Placement) returns (r: Result<real, EvalError>)
    requires FeatureDefined(weak.feature.rectangles, Table(integral), p)
    ensures r.Success? <==> WeakDefined(weak, Table(integral), p)
    ensures r.Failure? <==>
      |weak.leafValues| == 0 ||
      (|weak.leafValues| == 1 && FeatureValue(weak.feature.rectangles, Table(integral), p) >= Threshold(weak))
    ensures r.Success? ==> r.value == Vote(weak, Table(integral), p)
  {
    var featureValue := EvaluateFeature(weak.feature, integral, p);
    var threshold := if |weak.internalNodes| >= 3 then weak.internalNodes[2] else 0.0;
    var leaf := if featureValue < threshold then 0 else 1;
    if leaf >= |weak.leafValues| {
      return Failure(LeafIndexOutOfRange);
    }
    return Success(weak.leafValues[leaf]);
  }

  /** Every rectangle sum of every weak classifier in `weaks` is defined. */
  predicate FeaturesDefined(weaks: seq<HaarWeakClassifier>, source: SumSource, p: Placement)
    reads source.grid
  {
    forall k :: 0 <= k < |weaks| ==> FeatureDefined(weaks[k].feature.rectangles, source, p)
  }

  /** Every rectangle sum of every weak classifier of every stage is defined. */
  predicate CascadeFeaturesDefined(stages: seq<HaarStage>, source: SumSource, p: Placement)
    reads source.grid
  {
    forall s :: 0 <= s < |stages| ==> FeaturesDefined(stages[s].weakClassifiers, source, p)
  }

  predicate AllWeakDefined(weaks: seq<HaarWeakClassifier>, source: SumSource, p: Placement)
    reads source.grid
  {
    forall k :: 0 <= k < |weaks| ==> WeakDefined(weaks[k], source, p)
  }

  /** The sum of the votes of every weak classifier of a stage. */
  function StageSum(weaks: seq<HaarWeakClassifier>, source: SumSource, p: Placement): real
    reads source.grid
    requires AllWeakDefined(weaks, source, p)
  {
    if weaks == [] then 0.0
    else StageSum(weaks[..|weaks| - 1], source, p) + Vote(weaks[|weaks| - 1], source, p)
  }

  lemma {:induction false} StageSumAppend(a: seq<HaarWeakClassifier>, b: seq<HaarWeakClassifier>, source: SumSource, p: Placement)
    requires AllWeakDefined(a, source, p) && AllWeakDefined(b, source, p)
    ensures AllWeakDefined(a + b, source, p)
    ensures StageSum(a + b, source, p) == StageSum(a, source, p) + StageSum(b, source, p)
    decreases |b|
  {
    forall k | 0 <= k < |a + b|
      ensures WeakDefined((a + b)[k], source, p)
    {
      if k < |a| {
        assert (a + b)[k] == a[k];
      } else {
        assert (a + b)[k] == b[k - |a|];
      }
    }
    if b != [] {
      var b' := b[..|b| - 1];
      assert AllWeakDefined(b', source, p) by {
        forall k | 0 <= k < |b'| ensures WeakDefined(b'[k], source, p) {
          assert b'[k] == b[k];
        }
      }
      StageSumAppend(a, b', source, p);
      assert (a + b)[..|a + b| - 1] == a + b';
      assert (a + b)[|a + b| - 1] == b[|b| - 1];
      assert StageSum(a + b, source, p) == StageSum(a + b', source, p) + Vote(b[|b| - 1], source, p);
    } else {
      assert a + b == a;
    }
  }

  /**
   * No weak classifier is skipped: replacing the `k`-th one changes the stage
   * sum by exactly the change in its vote.
   */
  lemma StageSumCountsEveryVote(weaks: seq<HaarWeakClassifier>, k: nat, other: HaarWeakClassifier, source: SumSource, p: Placement)
    requires AllWeakDefined(weaks, source, p) && k < |weaks| && WeakDefined(other, source, p)
    ensures AllWeakDefined(weaks[k := other], source, p)
    ensures StageSum(weaks[k := other], source, p) ==
      StageSum(weaks, source, p) - Vote(weaks[k], source, p) + Vote(other, source, p)
  {
    var pre, post := weaks[..k], weaks[k + 1..];
    assert weaks == pre + [weaks[k]] + post;
    assert weaks[k := other] == pre + [other] + post;
    assert StageSum([weaks[k]], source, p) == Vote(weaks[k], source, p) by {
      assert [weaks[k]][..0] == [];
    }
    assert StageSum([other], source, p) == Vote(other, source, p) by {
      assert [other][..0] == [];
    }
    StageSumAppend(pre, [weaks[k]], source, p);
    StageSumAppend(pre + [weaks[k]], post, source, p);
    StageSumAppend(pre, [other], source, p);
    StageSumAppend(pre + [other], post, source, p);
  }

  predicate StageDefined(stage: HaarStage, source: SumSource, p: Placement)
    reads source.grid
  {
    AllWeakDefined(stage.weakClassifiers, source, p)
  }

  /** A stage passes unless its sum is below its threshold. */
  predicate StagePasses(stage: HaarStage, source: SumSource, p: Placement)
    reads source.grid
    requires StageDefined(stage, source, p)
  {
    !(StageSum(stage.weakClassifiers, source, p) < stage.stageThreshold)
  }

  /**
   * Every lookup the cascade makes is defined: the first stage is, and the
   * later stages need to be only when the earlier ones pass.
   */
  predicate CascadeDefined(stages: seq<HaarStage>, source: SumSource, p: Placement)
    reads source.grid
  {
    stages == [] ||
    (StageDefined(stages[0], source, p) &&
     (StagePasses(stages[0], source, p) ==> CascadeDefined(stages[1..], source, p)))
  }

  /** The cascade accepts the window when every stage passes, in order. */
  predicate Accepts(stages: seq<HaarStage>, source: SumSource, p: Placement)
    reads source.grid
    requires CascadeDefined(stages, source, p)
  {
    stages == [] || (StagePasses(stages[0], source, p) && Accepts(stages[1..], source, p))
  }

  /** One more weak classifier of a stage: its vote is added to the sum of the ones before it. */
  lemma StageSumStep(weaks: seq<HaarWeakClassifier>, k: nat, source: SumSource, p: Placement)
    requires k < |weaks| && AllWeakDefined(weaks[..k], source, p) && WeakDefined(weaks[k], source, p)
    ensures AllWeakDefined(weaks[..k + 1], source, p)
    ensures StageSum(weaks[..k + 1], source, p) == StageSum(weaks[..k], source, p) + Vote(weaks[k], source, p)
  {
    assert weaks[..k + 1][..k] == weaks[..k];
  }

  /** The inner loop of `EvaluateWindow`: the votes of a stage, summed in order, or the first vote's error. */
  method EvaluateStage(stage: HaarStage, integral: array2<int>, p: Placement) returns (r: Result<real, EvalError>)
    requires FeaturesDefined(stage.weakClassifiers, Table(integral), p)
    ensures r.Success? <==> StageDefined(stage, Table(integral), p)
    ensures r.Success? ==> r.value == StageSum(stage.weakClassifiers, Table(integral), p)
  {
    var weaks := stage.weakClassifiers;
    var stageSum := 0.0;
    var k := 0;
    while k < |weaks|
      invariant 0 <= k <= |weaks|
      invariant AllWeakDefined(weaks[..k], Table(integral), p)
      invariant stageSum == StageSum(weaks[..k], Table(integral), p)
    {
      var vote := EvaluateWeak(weaks[k], integral, p);
      if vote.Failure? {
        return Failure(vote.error);
      }
      StageSumStep(weaks, k, Table(integral), p);
      stageSum := stageSum + vote.value;
      k := k + 1;
    }
    assert weaks[..k] == weaks;
    return Success(stageSum);
  }

  /**
   * `EvaluateWindow`: stage by stage, rejecting at the first stage whose sum
   * is below its threshold; a vote's error ends the evaluation.
   */
  method EvaluateWindow(c: Classifier, integral: array2<int>, window: Rect) returns (r: Result<bool, EvalError>)
    requires CascadeFeaturesDefined(c.stages, Table(integral), Placement(window, c.baseWidth, c.baseHeight))
    ensures r.Success? <==> CascadeDefined(c.stages, Table(integral), Placement(window, c.baseWidth, c.baseHeight))
    ensures r.Success? ==> r.value == Accepts(c.stages, Table(integral), Placement(window, c.baseWidth, c.baseHeight))
  {
    var p := Placement(window, c.baseWidth, c.baseHeight);
    var stages := c.stages;
    var s := 0;
    while s < |stages|
      invariant 0 <= s <= |stages|
      invariant CascadeDefined(stages, Table(integral), p) == CascadeDefined(stages[s..], Table(integral), p)
      invariant CascadeDefined(stages[s..], Table(integral), p) ==>
        Accepts(stages, Table(integral), p) == Accepts(stages[s..], Table(integral), p)
    {
      var stage := stages[s];
      assert stages[s..][0] == stage && stages[s..][1..] == stages[s + 1..];
      var stageSum := EvaluateStage(stage, integral, p);
      if stageSum.Failure? {
        return Failure(stageSum.error);
      }
      if stageSum.value < stage.stageThreshold {
        return Success(false);
      }
      s := s + 1;
    }
    return Success(true);
  }

  /** With every sum defined and two leaves in every weak classifier, evaluation cannot fail. */
  lemma {:induction false} TwoLeavesCascadeDefined(stages: seq<HaarStage>, source: SumSource, p: Placement)
    requires CascadeFeaturesDefined(stages, source, p)
    requires forall s, k :: 0 <= s < |stages| && 0 <= k < |stages[s].weakClassifiers| ==>
      |stages[s].weakClassifiers[k].leafValues| >= 2
    ensures CascadeDefined(stages, source, p)
    decreases |stages|
  {
    if stages != [] {
      var tail := stages[1..];
      assert forall s :: 0 <= s < |tail| ==> tail[s] == stages[s + 1];
      TwoLeavesCascadeDefined(tail, source, p);
    }
  }

  /** With every stage defined, the cascade accepts exactly when all its stages pass. */
  lemma {:induction false} AcceptsIffEveryStagePasses(stages: seq<HaarStage>, source: SumSource, p: Placement)
    requires forall k :: 0 <= k < |stages| ==> StageDefined(stages[k], source, p)
    ensures CascadeDefined(stages, source, p)
    ensures Accepts(stages, source, p) <==> forall k :: 0 <= k < |stages| ==> StagePasses(stages[k], source, p)
    decreases |stages|
  {
    if stages != [] {
      AcceptsIffEveryStagePasses(stages[1..], source, p);
      assert forall k :: 1 <= k < |stages| ==> stages[k] == stages[1..][k - 1];
    }
  }

  /**
   * Once stage `k` fails after stages `0 … k - 1` pass, the window is rejected
   * whatever follows: the later stages are never evaluated, and need not even
   * be defined on the window.
   */
  lemma {:induction false} RejectsAtFirstFailingStage(stages: seq<HaarStage>, k: nat, rest: seq<HaarStage>, source: SumSource, p: Placement)
    requires k < |stages|
    requires forall j :: 0 <= j <= k ==> StageDefined(stages[j], source, p)
    requires forall j :: 0 <= j < k ==> StagePasses(stages[j], source, p)
    requires !StagePasses(stages[k], source, p)
    ensures CascadeDefined(stages[..k + 1] + rest, source, p)
    ensures !Accepts(stages[..k + 1] + rest, source, p)
    decreases k
  {
    var all := stages[..k + 1] + rest;
    assert all[0] == stages[0];
    if k > 0 {
      RejectsAtFirstFailingStage(stages[1..], k - 1, rest, source, p);
      assert all[1..] == stages[1..][..k] + rest;
    }
  }

  /** A cascade without stages accepts every window. */
  lemma EmptyCascadeAccepts(source: SumSource, p: Placement)
    ensures CascadeDefined([], source, p) && Accepts([], source, p)
  {
  }

  // ----- Table and image agree -----

  /** Every rectangle of `ws` lies inside an image of the given size. */
  predicate AllInside(ws: seq<PlacedRect>, imageWidth: int, imageHeight: int)
  {
    forall k :: 0 <= k < |ws| ==> Inside(ws[k].rect, imageWidth, imageHeight)
  }

  /** Every scaled rectangle of every weak classifier lies inside the image. */
  predicate ScaledInside(stages: seq<HaarStage>, src: array2<int>, p: Placement)
    reads src
  {
    ValidPlacement(p) &&
    forall s, k :: 0 <= s < |stages| && 0 <= k < |stages[s].weakClassifiers| ==>
      AllInside(Placed(stages[s].weakClassifiers[k].feature.rectangles, p), src.Length0, src.Length1)
  }

  lemma SumsDefinedOfTable(ws: seq<PlacedRect>, integral: array2<int>, src: array2<int>)
    requires IsIntegralOf(integral, src) && AllInside(ws, src.Length0, src.Length1)
    ensures SumsDefined(ws, Table(integral)) && SumsDefined(ws, Image(src))
    ensures forall k :: 0 <= k < |ws| ==> Sum(Table(integral), ws[k].rect) == Sum(Image(src), ws[k].rect)
  {
    forall k | 0 <= k < |ws|
      ensures SumDefined(Table(integral), ws[k].rect) && SumDefined(Image(src), ws[k].rect)
      ensures Sum(Table(integral), ws[k].rect) == Sum(Image(src), ws[k].rect)
    {
      SumOfTableIsSumOfImage(integral, src, ws[k].rect);
    }
  }

  lemma {:induction false} WeightedSumOfTable(ws: seq<PlacedRect>, n: nat, integral: array2<int>, src: array2<int>)
    requires n <= |ws| && SumsDefined(ws, Table(integral)) && SumsDefined(ws, Image(src))
    requires forall k :: 0 <= k < |ws| ==> Sum(Table(integral), ws[k].rect) == Sum(Image(src), ws[k].rect)
    ensures WeightedSum(ws, n, Table(integral)) == WeightedSum(ws, n, Image(src))
  {
    if n > 0 {
      WeightedSumOfTable(ws, n - 1, integral, src);
    }
  }

  lemma FeatureValueOfTable(rects: seq<HaarRectangle>, integral: array2<int>, src: array2<int>, p: Placement)
    requires IsIntegralOf(integral, src) && ValidPlacement(p)
    requires AllInside(Placed(rects, p), src.Length0, src.Length1)
    ensures FeatureDefined(rects, Table(integral), p) && FeatureDefined(rects, Image(src), p)
    ensures FeatureValue(rects, Table(integral), p) == FeatureValue(rects, Image(src), p)
  {
    SumsDefinedOfTable(Placed(rects, p), integral, src);
    WeightedSumOfTable(Placed(rects, p), |rects|, integral, src);
  }

  lemma {:induction false} StageSumOfTable(weaks: seq<HaarWeakClassifier>, integral: array2<int>, src: array2<int>, p: Placement)
    requires IsIntegralOf(integral, src) && ValidPlacement(p)
    requires forall k :: 0 <= k < |weaks| ==> AllInside(Placed(weaks[k].feature.rectangles, p), src.Length0, src.Length1)
    ensures FeaturesDefined(weaks, Table(integral), p) && FeaturesDefined(weaks, Image(src), p)
    ensures AllWeakDefined(weaks, Table(integral), p) == AllWeakDefined(weaks, Image(src), p)
    ensures AllWeakDefined(weaks, Table(integral), p) ==>
      StageSum(weaks, Table(integral), p) == StageSum(weaks, Image(src), p)
    decreases |weaks|
  {
    forall k | 0 <= k < |weaks|
      ensures FeatureDefined(weaks[k].feature.rectangles, Table(integral), p)
      ensures FeatureDefined(weaks[k].feature.rectangles, Image(src), p)
      ensures WeakDefined(weaks[k], Table(integral), p) == WeakDefined(weaks[k], Image(src), p)
      ensures WeakDefined(weaks[k], Table(integral), p) ==>
        Vote(weaks[k], Table(integral), p) == Vote(weaks[k], Image(src), p)
    {
      FeatureValueOfTable(weaks[k].feature.rectangles, integral, src, p);
    }
    if weaks != [] {
      StageSumOfTable(weaks[..|weaks| - 1], integral, src, p);
    }
  }

  /**
   * Evaluating the cascade over the summed-area table gives the same answer
   * as evaluating it with brute-force sums over the image, whenever every
   * scaled rectangle lies inside the image: both fail on a missing leaf
   * together, and otherwise both accept or both reject.
   */
  lemma {:induction false} AcceptsOfTable(stages: seq<HaarStage>, integral: array2<int>, src: array2<int>, p: Placement)
    requires IsIntegralOf(integral, src)
    requires ScaledInside(stages, src, p)
    ensures CascadeFeaturesDefined(stages, Table(integral), p) && CascadeFeaturesDefined(stages, Image(src), p)
    ensures CascadeDefined(stages, Table(integral), p) == CascadeDefined(stages, Image(src), p)
    ensures CascadeDefined(stages, Table(integral), p) ==>
      Accepts(stages, Table(integral), p) == Accepts(stages, Image(src), p)
    decreases |stages|
  {
    forall s | 0 <= s < |stages|
      ensures FeaturesDefined(stages[s].weakClassifiers, Table(integral), p)
      ensures FeaturesDefined(stages[s].weakClassifiers, Image(src), p)
    {
      StageSumOfTable(stages[s].weakClassifiers, integral, src, p);
    }
    if stages != [] {
      StageSumOfTable(stages[0].weakClassifiers, integral, src, p);
      var tail := stages[1..];
      assert forall s :: 0 <= s < |tail| ==> tail[s] == stages[s + 1];
      AcceptsOfTable(tail, integral, src, p);
    }
  }

  // ----- Reading the cascade document -----

  /** `Element(name).Value` on a missing element: the reader fails with a null dereference. */
  function Required(e: Option<Element>, name: string): (r: Result<Element, ParseError>)
    ensures r.Success? <==> e.Some?
    ensures r.Success? ==> r.value == e.value
    ensures r.Failure? ==> r.error == MissingElement(name)
  {
    if e.Some? then Success(e.value) else Failure(MissingElement(name))
  }

  /** `int.Parse` with the invariant culture, failing on a token that is not an `Int32`. */
  function IntOf(t: string): (r: Result<int, ParseError>)
  {
    match ParseInt32(t)
    case Some(v) => Success(v)
    case None => Failure(InvalidNumber(t))
  }

  /** `double.Parse` with the invariant culture, failing on a token that is not a number. */
  function DoubleOf(t: string): (r: Result<real, ParseError>)
  {
    match ParseDouble(t)
    case Some(v) => Success(v)
    case None => Failure(InvalidNumber(t))
  }

  // The list readers below recurse on an index into the list rather than on
  // its tail, as the `foreach` loops they describe do.

  /**
   * `Select(double.Parse).ToArray()` over the tokens from index `k` on: every
   * token parsed, or the first bad one reported.
   */
  function DoublesOf(ts: seq<string>, k: nat): (r: Result<seq<real>, ParseError>)
    requires k <= |ts|
    ensures r.Success? ==> |r.value| == |ts| - k
    decreases |ts| - k, 1
  {
    if k == |ts| then Success([]) else DoublesFrom(ts, k)
  }

  function DoublesFrom(ts: seq<string>, k: nat): (r: Result<seq<real>, ParseError>)
    requires k < |ts|
    ensures r.Success? ==> |r.value| == |ts| - k
    decreases |ts| - k, 0
  {
    var v :- DoubleOf(ts[k]);
    var vs :- DoublesOf(ts, k + 1);
    Success([v] + vs)
  }

  /** A parsed list holds, at each position, the value of the token there. */
  lemma {:induction false} DoublesOfAt(ts: seq<string>, k: nat, m: nat)
    requires k <= m < |ts| && DoublesOf(ts, k).Success?
    ensures ParseDouble(ts[m]) == Some(DoublesOf(ts, k).value[m - k])
    decreases m - k
  {
    assert DoublesOf(ts, k).value == [ParseDouble(ts[k]).value] + DoublesOf(ts, k + 1).value;
    if m > k {
      DoublesOfAt(ts, k + 1, m);
    }
  }

  /** A failure names a token that is not a number, and no earlier token is one. */
  lemma {:induction false} DoublesOfFailure(ts: seq<string>, k: nat)
    requires k <= |ts| && DoublesOf(ts, k).Failure?
    ensures exists m :: (k <= m < |ts| && ParseDouble(ts[m]).None? &&
      DoublesOf(ts, k).error == InvalidNumber(ts[m]) && forall j :: k <= j < m ==> ParseDouble(ts[j]).Some?)
    decreases |ts| - k
  {
    if ParseDouble(ts[k]).None? {
      assert DoublesOf(ts, k).error == InvalidNumber(ts[k]);
    } else {
      DoublesOfFailure(ts, k + 1);
    }
  }

  /** `Value.Trim().Split(' ', RemoveEmptyEntries)`. */
  function Tokens(e: Element): seq<string>
  {
    Split(Trim(Value(e)))
  }

  /** Two `int` tokens, the first one parsed first. */
  function IntPair(a: string, b: string): (r: Result<(int, int), ParseError>)
  {
    var u :- IntOf(a);
    var v :- IntOf(b);
    Success((u, v))
  }

  /** The rectangle of a five-token rect string: four `int`s and a `double`, parsed left to right. */
  function RectOfTokens(parts: seq<string>): (r: Result<HaarRectangle, ParseError>)
    requires |parts| == 5
  {
    var xy :- IntPair(parts[0], parts[1]);
    var wh :- IntPair(parts[2], parts[3]);
    var weight :- DoubleOf(parts[4]);
    Success(HaarRectangle(xy.0, xy.1, wh.0, wh.1, weight))
  }

  /** The tokens of each element, in order. */
  function TokenLists(es: seq<Element>): (ts: seq<seq<string>>)
    ensures |ts| == |es|
  {
    seq(|es|, i requires 0 <= i < |es| => Tokens(es[i]))
  }

  /** The `rects` loop from token list `k` on: five-token lists become rectangles, all others are skipped. */
  function ParseRects(ts: seq<seq<string>>, k: nat): Result<seq<HaarRectangle>, ParseError>
    requires k <= |ts|
    decreases |ts| - k, 1
  {
    if k == |ts| then Success([]) else ParseRectsFrom(ts, k)
  }

  function ParseRectsFrom(ts: seq<seq<string>>, k: nat): Result<seq<HaarRectangle>, ParseError>
    requires k < |ts|
    decreases |ts| - k, 0
  {
    if |ts[k]| == 5 then
      var r :- RectOfTokens(ts[k]);
      var rest :- ParseRects(ts, k + 1);
      Success([r] + rest)
    else ParseRects(ts, k + 1)
  }

  /** The token lists from `k` on that have exactly five tokens, in order. */
  function FiveTokenLists(ts: seq<seq<string>>, k: nat): (r: seq<seq<string>>)
    requires k <= |ts|
    ensures |r| <= |ts| - k
    decreases |ts| - k
  {
    if k == |ts| then []
    else (if |ts[k]| == 5 then [ts[k]] else []) + FiveTokenLists(ts, k + 1)
  }

  lemma {:induction false} FiveTokenListsAt(ts: seq<seq<string>>, k: nat, m: nat)
    requires k <= |ts| && m < |FiveTokenLists(ts, k)|
    ensures |FiveTokenLists(ts, k)[m]| == 5
    decreases |ts| - k
  {
    var five' := FiveTokenLists(ts, k + 1);
    if |ts[k]| == 5 {
      assert FiveTokenLists(ts, k) == [ts[k]] + five';
      if m > 0 {
        FiveTokenListsAt(ts, k + 1, m - 1);
      }
    } else {
      assert FiveTokenLists(ts, k) == five';
      FiveTokenListsAt(ts, k + 1, m);
    }
  }

  /** Parsing keeps one rectangle per five-token list and skips every other list. */
  lemma {:induction false} ParseRectsLength(ts: seq<seq<string>>, k: nat)
    requires k <= |ts| && ParseRects(ts, k).Success?
    ensures |ParseRects(ts, k).value| == |FiveTokenLists(ts, k)|
    decreases |ts| - k
  {
    if k < |ts| {
      ParseRectsLength(ts, k + 1);
    }
  }

  /**
   * The `m`-th parsed rectangle is the one written in the `m`-th five-token
   * list: only five-token rect strings produce rectangles, in order.
   */
  lemma {:induction false} ParseRectsAt(ts: seq<seq<string>>, k: nat, m: nat)
    requires k <= |ts| && ParseRects(ts, k).Success? && m < |FiveTokenLists(ts, k)|
    ensures |ParseRects(ts, k).value| == |FiveTokenLists(ts, k)|
    ensures |FiveTokenLists(ts, k)[m]| == 5
    ensures RectOfTokens(FiveTokenLists(ts, k)[m]) == Success(ParseRects(ts, k).value[m])
    decreases |ts| - k
  {
    ParseRectsLength(ts, k);
    FiveTokenListsAt(ts, k, m);
    var five' := FiveTokenLists(ts, k + 1);
    if |ts[k]| == 5 {
      assert FiveTokenLists(ts, k) == [ts[k]] + five';
      assert ParseRects(ts, k).value == [RectOfTokens(ts[k]).value] + ParseRects(ts, k + 1).value;
      if m > 0 {
        ParseRectsAt(ts, k + 1, m - 1);
      }
    } else {
      assert FiveTokenLists(ts, k) == five';
      ParseRectsAt(ts, k + 1, m);
    }
  }

  /** A failed parse names a five-token list whose numbers do not parse. */
  lemma {:induction false} ParseRectsFailure(ts: seq<seq<string>>, k: nat)
    requires k <= |ts| && ParseRects(ts, k).Failure?
    ensures exists m :: (0 <= m < |FiveTokenLists(ts, k)| && |FiveTokenLists(ts, k)[m]| == 5 &&
      RectOfTokens(FiveTokenLists(ts, k)[m]) == Failure(ParseRects(ts, k).error))
    decreases |ts| - k
  {
    var five' := FiveTokenLists(ts, k + 1);
    if |ts[k]| == 5 {
      assert FiveTokenLists(ts, k) == [ts[k]] + five';
      if RectOfTokens(ts[k]).Failure? {
        assert FiveTokenLists(ts, k)[0] == ts[k];
      } else {
        ParseRectsFailure(ts, k + 1);
        var m :| 0 <= m < |five'| && |five'[m]| == 5 &&
          RectOfTokens(five'[m]) == Failure(ParseRects(ts, k + 1).error);
        assert FiveTokenLists(ts, k)[m + 1] == five'[m];
      }
    } else {
      assert FiveTokenLists(ts, k) == five';
      ParseRectsFailure(ts, k + 1);
    }
  }

  /** The `i`-th `_` under `<features>`, or the exception `ElementAt(i)` raises. */
  function FeatureAt(features: Option<Element>, i: nat): (r: Result<Element, ParseError>)
    ensures r.Success? <==> features.Some? && i < |ChildrenNamed(features.value, "_")|
    ensures r.Success? ==> r.value == ChildrenNamed(features.value, "_")[i]
  {
    var fs :- Required(features, "features");
    var all := ChildrenNamed(fs, "_");
    if i < |all| then Success(all[i]) else Failure(FeatureIndexOutOfRange(i))
  }

  /** The rectangles of the feature element `feature`. */
  function FeatureRects(feature: Element): Result<seq<HaarRectangle>, ParseError>
  {
    var rectsElem :- Required(FirstChild(feature, "rects"), "rects");
    ParseRects(TokenLists(ChildrenNamed(rectsElem, "_")), 0)
  }

  /** The rectangles of the `i`-th feature. */
  function FeatureRectsAt(features: Option<Element>, i: nat): Result<seq<HaarRectangle>, ParseError>
  {
    var feature :- FeatureAt(features, i);
    FeatureRects(feature)
  }

  /** Two space-separated lists of doubles, the first one parsed first. */
  function DoubleLists(a: seq<string>, b: seq<string>): (r: Result<(seq<real>, seq<real>), ParseError>)
  {
    var x :- DoublesOf(a, 0);
    var y :- DoublesOf(b, 0);
    Success((x, y))
  }

  /** `internalNodes` and `leafValues`: both elements are read before either list is parsed. */
  function WeakTables(wc: Element): Result<(seq<real>, seq<real>), ParseError>
  {
    var nodesElem :- Required(FirstChild(wc, "internalNodes"), "internalNodes");
    var leavesElem :- Required(FirstChild(wc, "leafValues"), "leafValues");
    DoubleLists(Tokens(nodesElem), Tokens(leavesElem))
  }

  /** Weak classifier `w` carries the rectangles of the `j`-th feature, and is not tilted. */
  predicate TakesFeature(w: HaarWeakClassifier, features: Option<Element>, j: nat)
  {
    FeatureRectsAt(features, j) == Success(w.feature.rectangles) && !w.feature.tilted
  }

  /** The weak classifiers `ws` carry the rectangles of features `i`, `i + 1`, ... in turn, and none is tilted. */
  predicate TakeFeatures(ws: seq<HaarWeakClassifier>, features: Option<Element>, i: nat)
  {
    forall j {:trigger FeatureRectsAt(features, j)} :: i <= j < i + |ws| ==>
      FeatureRectsAt(features, j) == Success(ws[j - i].feature.rectangles) && !ws[j - i].feature.tilted
  }

  lemma TakeFeaturesAppend(a: seq<HaarWeakClassifier>, b: seq<HaarWeakClassifier>, features: Option<Element>, i: nat)
    requires TakeFeatures(a, features, i) && TakeFeatures(b, features, i + |a|)
    ensures TakeFeatures(a + b, features, i)
  {
    forall j {:trigger FeatureRectsAt(features, j)} | i <= j < i + |a + b|
      ensures FeatureRectsAt(features, j) == Success((a + b)[j - i].feature.rectangles) && !(a + b)[j - i].feature.tilted
    {
      if j < i + |a| {
        assert (a + b)[j - i] == a[j - i];
        assert FeatureRectsAt(features, j) == Success(a[j - i].feature.rectangles) && !a[j - i].feature.tilted;
      } else {
        assert (a + b)[j - i] == b[j - (i + |a|)];
        assert FeatureRectsAt(features, j) == Success(b[j - (i + |a|)].feature.rectangles) && !b[j - (i + |a|)].feature.tilted;
      }
    }
  }

  /** One weak classifier, which takes the `i`-th feature; `Tilted` is never set. */
  function ParseWeak(wc: Element, features: Option<Element>, i: nat): (r: Result<HaarWeakClassifier, ParseError>)
    ensures r.Success? ==> TakesFeature(r.value, features, i)
  {
    var tables :- WeakTables(wc);
    var rects :- FeatureRectsAt(features, i);
    Success(HaarWeakClassifier(tables.0, tables.1, HaarFeature(rects, false)))
  }

  /** The weak classifiers from the `k`-th `_` on, the first taking feature `i`, and the feature counter after them. */
  function ParseWeaks(wcs: seq<Element>, k: nat, features: Option<Element>, i: nat): (r: Result<(seq<HaarWeakClassifier>, nat), ParseError>)
    requires k <= |wcs|
    ensures r.Success? ==> |r.value.0| == |wcs| - k && r.value.1 == i + |r.value.0|
    ensures r.Success? ==> TakeFeatures(r.value.0, features, i)
    decreases |wcs| - k, 1
  {
    if k == |wcs| then Success(([], i)) else ParseWeaksFrom(wcs, k, features, i)
  }

  /** One pass of the loop over the `k`-th `_`, then the passes after it. */
  function ParseWeaksFrom(wcs: seq<Element>, k: nat, features: Option<Element>, i: nat): (r: Result<(seq<HaarWeakClassifier>, nat), ParseError>)
    requires k < |wcs|
    ensures r.Success? ==> |r.value.0| == |wcs| - k && r.value.1 == i + |r.value.0|
    ensures r.Success? ==> TakeFeatures(r.value.0, features, i)
    decreases |wcs| - k, 0
  {
    var w :- ParseWeak(wcs[k], features, i);
    var rest :- ParseWeaks(wcs, k + 1, features, i + 1);
    TakeFeaturesAppend([w], rest.0, features, i);
    Success(([w] + rest.0, rest.1))
  }

  /** `double.Parse(Element(name).Value.Trim())`. */
  function DoubleUnder(e: Element, name: string): Result<real, ParseError>
  {
    var child :- Required(FirstChild(e, name), name);
    DoubleOf(Trim(Value(child)))
  }

  /** `int.Parse(Element(name).Value.Trim())`. */
  function IntUnder(e: Element, name: string): Result<int, ParseError>
  {
    var child :- Required(FirstChild(e, name), name);
    IntOf(Trim(Value(child)))
  }

  /** The weak classifiers of a stage element; a stage without `weakClassifiers` has none. */
  function StageWeaks(se: Element, features: Option<Element>, i: nat): (r: Result<(seq<HaarWeakClassifier>, nat), ParseError>)
    ensures r.Success? ==> r.value.1 == i + |r.value.0|
    ensures r.Success? ==> TakeFeatures(r.value.0, features, i)
  {
    match FirstChild(se, "weakClassifiers")
    case None => Success(([], i))
    case Some(wce) => ParseWeaks(ChildrenNamed(wce, "_"), 0, features, i)
  }

  function ParseStage(se: Element, features: Option<Element>, i: nat): (r: Result<(HaarStage, nat), ParseError>)
    ensures r.Success? ==> r.value.1 == i + |r.value.0.weakClassifiers|
    ensures r.Success? ==> TakeFeatures(r.value.0.weakClassifiers, features, i)
  {
    var threshold :- DoubleUnder(se, "stageThreshold");
    var weaks :- StageWeaks(se, features, i);
    Success((HaarStage(threshold, weaks.0), weaks.1))
  }

  /** The stages from the `k`-th `_` on, their first weak classifier taking feature `i`. */
  function ParseStages(ses: seq<Element>, k: nat, features: Option<Element>, i: nat): (r: Result<(seq<HaarStage>, nat), ParseError>)
    requires k <= |ses|
    ensures r.Success? ==> r.value.1 == i + |AllWeaks(r.value.0)|
    ensures r.Success? ==> TakeFeatures(AllWeaks(r.value.0), features, i)
    decreases |ses| - k, 1
  {
    if k == |ses| then Success(([], i)) else ParseStagesFrom(ses, k, features, i)
  }

  function ParseStagesFrom(ses: seq<Element>, k: nat, features: Option<Element>, i: nat): (r: Result<(seq<HaarStage>, nat), ParseError>)
    requires k < |ses|
    ensures r.Success? ==> r.value.1 == i + |AllWeaks(r.value.0)|
    ensures r.Success? ==> TakeFeatures(AllWeaks(r.value.0), features, i)
    decreases |ses| - k, 0
  {
    var st :- ParseStage(ses[k], features, i);
    var rest :- ParseStages(ses, k + 1, features, st.1);
    StagesCons(st.0, rest.0, features, i, st.1, rest.1);
    Success(([st.0] + rest.0, rest.1))
  }

  /** A stage taking features from `i` to `j`, then stages taking them from `j` to `n`, take them from `i` to `n`. */
  lemma StagesCons(stage: HaarStage, rest: seq<HaarStage>, features: Option<Element>, i: nat, j: nat, n: nat)
    requires j == i + |stage.weakClassifiers| && TakeFeatures(stage.weakClassifiers, features, i)
    requires n == j + |AllWeaks(rest)| && TakeFeatures(AllWeaks(rest), features, j)
    ensures n == i + |AllWeaks([stage] + rest)| && TakeFeatures(AllWeaks([stage] + rest), features, i)
  {
    AllWeaksCons(stage, rest);
    TakeFeaturesAppend(stage.weakClassifiers, AllWeaks(rest), features, i);
  }

  /** The weak classifiers of all stages, in document order. */
  function AllWeaks(stages: seq<HaarStage>): seq<HaarWeakClassifier>
  {
    WeaksFrom(stages, 0)
  }

  /** The weak classifiers of the stages from the `k`-th on. */
  function WeaksFrom(stages: seq<HaarStage>, k: nat): seq<HaarWeakClassifier>
    requires k <= |stages|
    decreases |stages| - k
  {
    if k == |stages| then [] else stages[k].weakClassifiers + WeaksFrom(stages, k + 1)
  }

  lemma AllWeaksCons(stage: HaarStage, rest: seq<HaarStage>)
    ensures AllWeaks([stage] + rest) == stage.weakClassifiers + AllWeaks(rest)
  {
    WeaksFromShift([stage], rest, 0);
  }

  lemma {:induction false} WeaksFromShift(a: seq<HaarStage>, b: seq<HaarStage>, k: nat)
    requires k <= |b|
    ensures WeaksFrom(a + b, |a| + k) == WeaksFrom(b, k)
    decreases |b| - k
  {
    if k < |b| {
      assert (a + b)[|a| + k] == b[k];
      WeaksFromShift(a, b, k + 1);
    }
  }

  /** `?.Value.Trim()` of an optional element. */
  function TrimmedText(e: Option<Element>): Option<string>
  {
    if e.Some? then Some(Trim(Value(e.value))) else None
  }

  /** The `width` and `height` of the cascade element, in that order. */
  function BaseSize(ce: Element): Result<(int, int), ParseError>
  {
    var width :- IntUnder(ce, "width");
    var height :- IntUnder(ce, "height");
    Success((width, height))
  }

  /** The stages of the cascade element; without `stages` there are none. */
  function CascadeStages(ce: Element): Result<(seq<HaarStage>, nat), ParseError>
  {
    match FirstChild(ce, "stages")
    case None => Success(([], 0))
    case Some(se) => ParseStages(ChildrenNamed(se, "_"), 0, FirstChild(ce, "features"), 0)
  }

  /** What `ParseCascadeFromXDocument` produces for the document whose root is `root`. */
  function ParseCascade(root: Element): Result<Classifier, ParseError>
  {
    var kids := Children(root);
    if kids == [] then Failure(NoCascadeElement)
    else
      var ce := kids[0];
      var size :- BaseSize(ce);
      var stages :- CascadeStages(ce);
      Success(Classifier(ce.name, TrimmedText(FirstChild(ce, "stageType")), TrimmedText(FirstChild(ce, "featureType")),
                         size.0, size.1, stages.0))
  }

  function PrependList<T>(acc: seq<T>, r: Result<seq<T>, ParseError>): Result<seq<T>, ParseError>
  {
    if r.Success? then Success(acc + r.value) else r
  }

  function PrependCounted<T>(acc: seq<T>, r: Result<(seq<T>, nat), ParseError>): Result<(seq<T>, nat), ParseError>
  {
    if r.Success? then Success((acc + r.value.0, r.value.1)) else r
  }

  lemma PrependCountedStep<T>(acc: seq<T>, x: T, r: Result<(seq<T>, nat), ParseError>)
    ensures PrependCounted(acc, PrependCounted([x], r)) == PrependCounted(acc + [x], r)
  {
    if r.Success? {
      assert acc + ([x] + r.value.0) == (acc + [x]) + r.value.0;
    }
  }

  /** One pass of the weak-classifier loop, as `ParseWeaks` unfolds it. */
  lemma ParseWeaksStep(wcs: seq<Element>, k: nat, features: Option<Element>, i: nat, w: HaarWeakClassifier)
    requires k < |wcs| && ParseWeak(wcs[k], features, i) == Success(w)
    ensures ParseWeaks(wcs, k, features, i) == PrependCounted([w], ParseWeaks(wcs, k + 1, features, i + 1))
  {
  }

  /** One pass of the stage loop, as `ParseStages` unfolds it. */
  lemma ParseStagesStep(ses: seq<Element>, k: nat, features: Option<Element>, i: nat, st: (HaarStage, nat))
    requires k < |ses| && ParseStage(ses[k], features, i) == Success(st)
    ensures ParseStages(ses, k, features, i) == PrependCounted([st.0], ParseStages(ses, k + 1, features, st.1))
  {
  }

  /** The stage loop keeps its invariant across one pass. */
  lemma ReadStagesStep(ses: seq<Element>, features: Option<Element>, k: nat, stages: seq<HaarStage>, i: nat, st: (HaarStage, nat))
    requires k < |ses| && ParseStage(ses[k], features, i) == Success(st)
    requires ParseStages(ses, 0, features, 0) == PrependCounted(stages, ParseStages(ses, k, features, i))
    ensures ParseStages(ses, 0, features, 0) == PrependCounted(stages + [st.0], ParseStages(ses, k + 1, features, st.1))
  {
    ParseStagesStep(ses, k, features, i, st);
    PrependCountedStep(stages, st.0, ParseStages(ses, k + 1, features, st.1));
  }

  /** One pass of the rectangle loop over a five-token `_`, as `ParseRects` unfolds it. */
  lemma ParseRectsStep(ts: seq<seq<string>>, k: nat, rect: HaarRectangle)
    requires k < |ts| && |ts[k]| == 5 && RectOfTokens(ts[k]) == Success(rect)
    ensures ParseRects(ts, k) == PrependList([rect], ParseRects(ts, k + 1))
  {
  }

  lemma PrependListStep<T>(acc: seq<T>, x: T, r: Result<seq<T>, ParseError>)
    ensures PrependList(acc, PrependList([x], r)) == PrependList(acc + [x], r)
  {
    if r.Success? {
      assert acc + ([x] + r.value) == (acc + [x]) + r.value;
    }
  }

  /** The weak-classifier loop keeps its invariant across one pass. */
  lemma ParseWeakClassifiersStep(wcs: seq<Element>, features: Option<Element>, i0: nat, k: nat,
                                 weaks: seq<HaarWeakClassifier>, i: nat, w: HaarWeakClassifier)
    requires k < |wcs| && ParseWeak(wcs[k], features, i) == Success(w)
    requires ParseWeaks(wcs, 0, features, i0) == PrependCounted(weaks, ParseWeaks(wcs, k, features, i))
    ensures ParseWeaks(wcs, 0, features, i0) == PrependCounted(weaks + [w], ParseWeaks(wcs, k + 1, features, i + 1))
  {
    ParseWeaksStep(wcs, k, features, i, w);
    PrependCountedStep(weaks, w, ParseWeaks(wcs, k + 1, features, i + 1));
  }

  /** The rectangle loop keeps its invariant across one pass over a five-token `_`. */
  lemma ParseRectanglesStep(ts: seq<seq<string>>, k: nat, rects: seq<HaarRectangle>, rect: HaarRectangle)
    requires k < |ts| && |ts[k]| == 5 && RectOfTokens(ts[k]) == Success(rect)
    requires ParseRects(ts, 0) == PrependList(rects, ParseRects(ts, k))
    ensures ParseRects(ts, 0) == PrependList(rects + [rect], ParseRects(ts, k + 1))
  {
    ParseRectsStep(ts, k, rect);
    PrependListStep(rects, rect, ParseRects(ts, k + 1));
  }

  /** The `foreach (var rect in rects.Elements("_"))` loop. */
  method ParseRectangles(rectElems: seq<Element>) returns (r: Result<seq<HaarRectangle>, ParseError>)
    ensures r == ParseRects(TokenLists(rectElems), 0)
  {
    ghost var ts := TokenLists(rectElems);
    var rects: seq<HaarRectangle> := [];
    var k := 0;
    assert ParseRects(ts, 0).Success? ==> [] + ParseRects(ts, 0).value == ParseRects(ts, 0).value;
    while k < |rectElems|
      invariant 0 <= k <= |rectElems|
      invariant ParseRects(ts, 0) == PrependList(rects, ParseRects(ts, k))
    {
      var parts := Tokens(rectElems[k]);
      assert parts == ts[k];
      if |parts| == 5 {
        var rect := RectOfTokens(parts);
        if rect.Failure? { return Failure(rect.error); }
        ParseRectanglesStep(ts, k, rects, rect.value);
        rects := rects + [rect.value];
      }
      k := k + 1;
    }
    assert rects + [] == rects;
    return Success(rects);
  }

  /** One pass of the weak-classifier loop: the two tables, then the rectangles of the `i`-th feature. */
  method ReadWeakClassifier(wc: Element, features: Option<Element>, i: nat) returns (r: Result<HaarWeakClassifier, ParseError>)
    ensures r == ParseWeak(wc, features, i)
  {
    var tables := WeakTables(wc);
    if tables.Failure? { return Failure(tables.error); }
    var feature := FeatureAt(features, i);
    if feature.Failure? { return Failure(feature.error); }
    var rectsElem := FirstChild(feature.value, "rects");
    if rectsElem.None? { return Failure(MissingElement("rects")); }
    var rects := ParseRectangles(ChildrenNamed(rectsElem.value, "_"));
    if rects.Failure? { return Failure(rects.error); }
    return Success(HaarWeakClassifier(tables.value.0, tables.value.1, HaarFeature(rects.value, false)));
  }

  /** The `foreach (XElement wcElem in weakClassifiersElem.Elements("_"))` loop, advancing the feature counter. */
  method ParseWeakClassifiers(wcs: seq<Element>, features: Option<Element>, i0: nat)
    returns (r: Result<(seq<HaarWeakClassifier>, nat), ParseError>)
    ensures r == ParseWeaks(wcs, 0, features, i0)
  {
    var weaks: seq<HaarWeakClassifier> := [];
    var i: nat := i0;
    var k := 0;
    assert ParseWeaks(wcs, 0, features, i0).Success? ==>
      [] + ParseWeaks(wcs, 0, features, i0).value.0 == ParseWeaks(wcs, 0, features, i0).value.0;
    while k < |wcs|
      invariant 0 <= k <= |wcs|
      invariant ParseWeaks(wcs, 0, features, i0) == PrependCounted(weaks, ParseWeaks(wcs, k, features, i))
    {
      var w := ReadWeakClassifier(wcs[k], features, i);
      if w.Failure? { return Failure(w.error); }
      ParseWeakClassifiersStep(wcs, features, i0, k, weaks, i, w.value);
      weaks := weaks + [w.value];
      i := i + 1;
      k := k + 1;
    }
    assert weaks + [] == weaks;
    return Success((weaks, i));
  }

  /** One pass of the stage loop: the threshold, then the weak classifiers, which advance the feature counter. */
  method ReadStage(se: Element, features: Option<Element>, i: nat) returns (r: Result<(HaarStage, nat), ParseError>)
    ensures r == ParseStage(se, features, i)
  {
    var threshold := DoubleUnder(se, "stageThreshold");
    if threshold.Failure? { return Failure(threshold.error); }
    var weakClassifiersElem := FirstChild(se, "weakClassifiers");
    if weakClassifiersElem.None? {
      return Success((HaarStage(threshold.value, []), i));
    }
    var parsed := ParseWeakClassifiers(ChildrenNamed(weakClassifiersElem.value, "_"), features, i);
    if parsed.Failure? { return Failure(parsed.error); }
    return Success((HaarStage(threshold.value, parsed.value.0), parsed.value.1));
  }

  /** The `foreach (XElement stageElem in stagesElem.Elements("_"))` loop. */
  method ReadStages(ses: seq<Element>, features: Option<Element>) returns (r: Result<(seq<HaarStage>, nat), ParseError>)
    ensures r == ParseStages(ses, 0, features, 0)
  {
    var stages: seq<HaarStage> := [];
    var i: nat := 0;
    var k := 0;
    assert ParseStages(ses, 0, features, 0).Success? ==>
      [] + ParseStages(ses, 0, features, 0).value.0 == ParseStages(ses, 0, features, 0).value.0;
    while k < |ses|
      invariant 0 <= k <= |ses|
      invariant ParseStages(ses, 0, features, 0) == PrependCounted(stages, ParseStages(ses, k, features, i))
    {
      var st := ReadStage(ses[k], features, i);
      if st.Failure? { return Failure(st.error); }
      ReadStagesStep(ses, features, k, stages, i, st.value);
      stages := stages + [st.value.0];
      i := st.value.1;
      k := k + 1;
    }
    assert stages + [] == stages;
    return Success((stages, i));
  }

  /** `ParseCascadeFromXDocument`, over the document's root element. */
  method ParseCascadeFromXDocument(root: Element) returns (r: Result<Classifier, ParseError>)
    ensures r == ParseCascade(root)
  {
    var kids := Children(root);
    if kids == [] { return Failure(NoCascadeElement); }
    var ce := kids[0];
    var stageType := TrimmedText(FirstChild(ce, "stageType"));
    var featureType := TrimmedText(FirstChild(ce, "featureType"));
    var width := IntUnder(ce, "width");
    if width.Failure? { return Failure(width.error); }
    var height := IntUnder(ce, "height");
    if height.Failure? { return Failure(height.error); }
    var stagesElem := FirstChild(ce, "stages");
    var stages: seq<HaarStage> := [];
    if stagesElem.Some? {
      var parsed := ReadStages(ChildrenNamed(stagesElem.value, "_"), FirstChild(ce, "features"));
      if parsed.Failure? { return Failure(parsed.error); }
      stages := parsed.value.0;
    }
    return Success(Classifier(ce.name, stageType, featureType, width.value, height.value, stages));
  }

  // ----- Properties of the reader -----

  /**
   * The feature counter runs across all stages: the `k`-th weak classifier in
   * document order carries the rectangles of the `k`-th `_` under `<features>`,
   * and the reader never sets `Tilted`.
   */
  lemma KthWeakClassifierTakesKthFeature(root: Element, k: nat)
    requires ParseCascade(root).Success?
    requires k < |AllWeaks(ParseCascade(root).value.stages)|
    ensures FeatureRectsAt(FirstChild(Children(root)[0], "features"), k) ==
      Success(AllWeaks(ParseCascade(root).value.stages)[k].feature.rectangles)
    ensures !AllWeaks(ParseCascade(root).value.stages)[k].feature.tilted
  {
  }

  /** A document whose root has no child element is refused. */
  lemma NoChildElementIsRefused(root: Element)
    requires Children(root) == []
    ensures ParseCascade(root) == Failure(NoCascadeElement)
  {
  }
}
