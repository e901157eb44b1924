/**
 * `HaarCascade.cs`: the older cascade schema (`<cascade>` with `<size>` and
 * `<stages>` of `<trees>`), its loader, and its weak classifiers, which carry
 * their own threshold and left/right leaves.
 *
 * A rectangle of this schema has the same five fields as the rectangles of
 * `HaarCascadeClassifier.cs`, is read from the same five-token strings, and is
 * scaled and summed in the same way, so the rectangle reader and the feature
 * value are shared with that module.
 */
module HaarCascade {
  import opened Wrappers
  import opened XmlTree
  import opened IntegralHelper
  import C = HaarCascadeClassifier

  // ----- Data model -----

  /** `WeightedRect`: `X`, `Y`, `Width`, `Height` and `Weight`. */
  type WeightedRect = C.HaarRectangle

  datatype HaarFeature = HaarFeature(rects: seq<WeightedRect>, tilted: bool)

  /** `Feature` stays `null` (`None`) when the weak element has no `<feature>`. */
  datatype HaarWeakClassifier = HaarWeakClassifier(feature: Option<HaarFeature>, threshold: real, leftVal: real, rightVal: real)

  datatype HaarStage = HaarStage(stageThreshold: real, weakClassifiers: seq<HaarWeakClassifier>)

  datatype Cascade = Cascade(baseWidth: int, baseHeight: int, stages: seq<HaarStage>)

  /** The exceptions `Load(XDocument)` can raise. */
  datatype LoadError =
    | MissingCascade            // "missing <cascade> element"
    | MissingStages             // "missing <stages> element"
    | Read(error: C.ParseError)  // a null dereference or a number that does not parse, below `<stages>`

  /** The base window size used when `<size>` is absent or malformed. */
  const DefaultSize: int := 24

  // ----- Evaluation on one window -----

  /** `HaarFeature.ComputeFeature`: the weighted sum of the scaled rectangles' sums; `Tilted` plays no part. */
  method ComputeFeature(feature: HaarFeature, integral: array2<int>, p: C.Placement) returns (sum: real)
    requires C.FeatureDefined(feature.rects, Table(integral), p)
    ensures sum == C.FeatureValue(feature.rects, Table(integral), p)
  {
    ghost var placed := C.Placed(feature.rects, p);
    sum := 0.0;
    var i := 0;
    while i < |feature.rects|
      invariant 0 <= i <= |feature.rects|
      invariant sum == C.WeightedSum(placed, i, Table(integral))
    {
      C.PlacedAt(feature.rects, p, i);
      var r := C.ScaledRect(feature.rects[i], p);
      var rectSum := SumRectangle(integral, r.x, r.y, r.width, r.height);
      sum := sum + feature.rects[i].weight * rectSum as real;
      i := i + 1;
    }
  }

  /** The weak classifier has a feature, and every rectangle sum it reads is defined. */
  predicate WeakDefined(weak: HaarWeakClassifier, source: SumSource, p: C.Placement)
    reads source.grid
  {
    weak.feature.Some? && C.FeatureDefined(weak.feature.value.rects, source, p)
  }

  /**
   * The vote of `HaarWeakClassifier.Evaluate`: `LeftVal` when the feature value
   * is below `Threshold`, and `RightVal` when it is equal or above.
   */
  function Vote(weak: HaarWeakClassifier, source: SumSource, p: C.Placement): (v: real)
    reads source.grid
    requires WeakDefined(weak, source, p)
    ensures v == weak.leftVal || v == weak.rightVal
  {
    if C.FeatureValue(weak.feature.value.rects, source, p) < weak.threshold then weak.leftVal else weak.rightVal
  }

  /** The exception `Evaluate` raises once every rectangle sum is defined: the dereference of a `null` feature. */
  datatype EvalError = NullFeature

  /**
   * `HaarWeakClassifier.Evaluate`: the vote, or the null dereference of a
   * weak classifier read without a `<feature>`.
   */
  method Evaluate(weak: HaarWeakClassifier, integral: array2<int>, p: C.Placement) returns (r: Result<real, EvalError>)
    requires weak.feature.Some? ==> C.FeatureDefined(weak.feature.value.rects, Table(integral), p)
    ensures r.Failure? <==> weak.feature.None?
    ensures r.Success? ==> WeakDefined(weak, Table(integral), p) && r.value == Vote(weak, Table(integral), p)
  {
    if weak.feature.None? {
      return Failure(NullFeature);
    }
    var featureValue := ComputeFeature(weak.feature.value, integral, p);
    return Success(if featureValue < weak.threshold then weak.leftVal else weak.rightVal);
  }

  // ----- Reading the cascade document -----

  function Lift<T>(r: Result<T, C.ParseError>): (l: Result<T, LoadError>)
    ensures l.Success? <==> r.Success?
    ensures l.Success? ==> l.value == r.value
    ensures l.Failure? ==> l.error == Read(r.error)
  {
    if r.Success? then Success(r.value) else Failure(Read(r.error))
  }

  /** An item read in front of the items read after it; the first failure wins. */
  function Cons<T>(x: Result<T, LoadError>, rest: Result<seq<T>, LoadError>): (r: Result<seq<T>, LoadError>)
    ensures r.Success? ==> x.Success? && rest.Success? && r.value == [x.value] + rest.value
    ensures r.Failure? ==> (x.Failure? && r.error == x.error) || (x.Success? && rest.Failure? && r.error == rest.error)
  {
    var v :- x;
    var vs :- rest;
    Success([v] + vs)
  }

  /**
   * Every item of `xs` from the `k`-th on, read with `read` in order: one
   * result per item, or the error of an item that fails to read.
   */
  function ReadEach<X, T>(xs: seq<X>, k: nat, read: X -> Result<T, LoadError>): (r: Result<seq<T>, LoadError>)
    requires k <= |xs|
    ensures r.Success? ==> |r.value| == |xs| - k
    ensures r.Failure? ==> exists j :: k <= j < |xs| && read(xs[j]) == Failure(r.error)
    decreases |xs| - k
  {
    if k == |xs| then Success([]) else Cons(read(xs[k]), ReadEach(xs, k + 1, read))
  }

  /** A successful read holds, at each position, what `read` gives for the item there. */
  lemma {:induction false} ReadEachAt<X, T>(xs: seq<X>, k: nat, m: nat, read: X -> Result<T, LoadError>)
    requires k <= m < |xs| && ReadEach(xs, k, read).Success?
    ensures read(xs[m]).Success? && ReadEach(xs, k, read).value[m - k] == read(xs[m]).value
    decreases m - k
  {
    if m > k {
      ReadEachAt(xs, k + 1, m, read);
    }
  }

  /** Reading the tail of `a + b` is reading `b`. */
  lemma {:induction false} ReadEachShift<X, T>(a: seq<X>, b: seq<X>, k: nat, read: X -> Result<T, LoadError>)
    requires k <= |b|
    ensures ReadEach(a + b, |a| + k, read) == ReadEach(b, k, read)
    decreases |b| - k
  {
    if k < |b| {
      assert (a + b)[|a| + k] == b[k];
      ReadEachShift(a, b, k + 1, read);
    }
  }

  /** Reading `[x] + rest` is reading `x` in front of reading `rest`. */
  lemma ReadEachCons<X, T>(x: X, rest: seq<X>, read: X -> Result<T, LoadError>)
    ensures ReadEach([x] + rest, 0, read) == Cons(read(x), ReadEach(rest, 0, read))
  {
    assert ([x] + rest)[0] == x;
    ReadEachShift([x], rest, 0, read);
  }

  /** `double.Parse(e.Value)`: the text is parsed as it stands, without `Trim`. */
  function NumberOf(e: Element): Result<real, LoadError>
  {
    Lift(C.DoubleOf(Value(e)))
  }

  /** `double.Parse(Element(name).Value)`, failing when there is no such child. */
  function NumberUnder(e: Element, name: string): Result<real, LoadError>
  {
    var child :- Lift(C.Required(FirstChild(e, name), name));
    NumberOf(child)
  }

  /**
   * The base size: the two numbers of `<size>` when its trimmed text has
   * exactly two tokens and both are `int`s, and 24 × 24 in every other case,
   * including when `<size>` is absent.
   */
  function BaseSize(sizeElem: Option<Element>): (size: (int, int))
    ensures sizeElem.None? ==> size == (DefaultSize, DefaultSize)
    ensures (sizeElem.Some? && |C.Tokens(sizeElem.value)| == 2 &&
      ParseInt32(C.Tokens(sizeElem.value)[0]).Some? && ParseInt32(C.Tokens(sizeElem.value)[1]).Some?) ==>
      ParseInt32(C.Tokens(sizeElem.value)[0]) == Some(size.0) && ParseInt32(C.Tokens(sizeElem.value)[1]) == Some(size.1)
    ensures (sizeElem.Some? && !(|C.Tokens(sizeElem.value)| == 2 &&
      ParseInt32(C.Tokens(sizeElem.value)[0]).Some? && ParseInt32(C.Tokens(sizeElem.value)[1]).Some?)) ==>
      size == (DefaultSize, DefaultSize)
  {
    if sizeElem.None? then (DefaultSize, DefaultSize)
    else
      var parts := C.Tokens(sizeElem.value);
      if |parts| == 2 && ParseInt32(parts[0]).Some? && ParseInt32(parts[1]).Some? then
        (ParseInt32(parts[0]).value, ParseInt32(parts[1]).value)
      else (DefaultSize, DefaultSize)
  }

  /** `tiltedElem != null && tiltedElem.Value.Trim() == "1"`. */
  predicate IsTilted(tiltedElem: Option<Element>)
  {
    tiltedElem.Some? && Trim(Value(tiltedElem.value)) == "1"
  }

  /** The rectangles of a `<feature>`: none when it has no `<rects>`. */
  function FeatureRects(fe: Element): (r: Result<seq<WeightedRect>, LoadError>)
    ensures r.Failure? ==> r.error.Read?
  {
    match FirstChild(fe, "rects")
    case None => Success([])
    case Some(re) => Lift(C.ParseRects(C.TokenLists(ChildrenNamed(re, "_")), 0))
  }

  function LoadFeature(fe: Element): (r: Result<HaarFeature, LoadError>)
    ensures r.Failure? ==> r.error.Read?
  {
    var rects :- FeatureRects(fe);
    Success(HaarFeature(rects, IsTilted(FirstChild(fe, "tilted"))))
  }

  /** The feature of a weak element, `null` when it has no `<feature>`. */
  function OptionalFeature(fe: Option<Element>): (r: Result<Option<HaarFeature>, LoadError>)
    ensures r.Failure? ==> r.error.Read?
  {
    match fe
    case None => Success(None)
    case Some(e) =>
      var feature :- LoadFeature(e);
      Success(Some(feature))
  }

  /** `left_val` and `right_val` when both are present, and `0` and `1` otherwise. */
  function Leaves(we: Element): (r: Result<(real, real), LoadError>)
    ensures r.Failure? ==> r.error.Read?
  {
    var left := FirstChild(we, "left_val");
    var right := FirstChild(we, "right_val");
    if left.Some? && right.Some? then
      var l :- NumberOf(left.value);
      var r :- NumberOf(right.value);
      Success((l, r))
    else Success((0.0, 1.0))
  }

  /** One weak classifier: the feature, then the threshold, then the leaves. */
  function LoadWeak(we: Element): (r: Result<HaarWeakClassifier, LoadError>)
    ensures r.Failure? ==> r.error.Read?
  {
    var feature :- OptionalFeature(FirstChild(we, "feature"));
    var threshold :- NumberUnder(we, "threshold");
    var leaves :- Leaves(we);
    Success(HaarWeakClassifier(feature, threshold, leaves.0, leaves.1))
  }

  /**
   * The trees from the `k`-th on: the first `_` of each tree is read with
   * `read` (a weak classifier); a tree without one adds nothing.
   */
  function LoadTrees<T>(ts: seq<Element>, k: nat, read: Element -> Result<T, LoadError>): (r: Result<seq<T>, LoadError>)
    requires k <= |ts|
    ensures r.Failure? ==>
      exists j :: k <= j < |ts| && FirstChild(ts[j], "_").Some? && read(FirstChild(ts[j], "_").value) == Failure(r.error)
    decreases |ts| - k
  {
    if k == |ts| then Success([])
    else
      match FirstChild(ts[k], "_")
      case None => LoadTrees(ts, k + 1, read)
      case Some(we) => Cons(read(we), LoadTrees(ts, k + 1, read))
  }

  /** The weak classifiers of a stage; a stage without `<trees>` has none. */
  function StageWeaks(se: Element): (r: Result<seq<HaarWeakClassifier>, LoadError>)
    ensures r.Failure? ==> r.error.Read?
  {
    match FirstChild(se, "trees")
    case None => Success([])
    case Some(te) => LoadTrees(ChildrenNamed(te, "_"), 0, LoadWeak)
  }

  function LoadStage(se: Element): (r: Result<HaarStage, LoadError>)
    ensures r.Failure? ==> r.error.Read?
  {
    var threshold :- NumberUnder(se, "stageThreshold");
    var weaks :- StageWeaks(se);
    Success(HaarStage(threshold, weaks))
  }

  /** What `Load(XDocument)` produces for the document whose root is `root`. */
  function LoadDocument(root: Element): Result<Cascade, LoadError>
  {
    match FirstChild(root, "cascade")
    case None => Failure(MissingCascade)
    case Some(ce) =>
      var size := BaseSize(FirstChild(ce, "size"));
      match FirstChild(ce, "stages")
      case None => Failure(MissingStages)
      case Some(se) =>
        var stages :- ReadEach(ChildrenNamed(se, "_"), 0, LoadStage);
        Success(Cascade(size.0, size.1, stages))
  }

  // ----- The loader's loops -----

  function Prepend<T>(acc: seq<T>, r: Result<seq<T>, LoadError>): Result<seq<T>, LoadError>
  {
    if r.Success? then Success(acc + r.value) else r
  }

  lemma PrependStep<T>(acc: seq<T>, x: T, r: Result<seq<T>, LoadError>)
    ensures Prepend(acc, Prepend([x], r)) == Prepend(acc + [x], r)
  {
    if r.Success? {
      assert acc + ([x] + r.value) == (acc + [x]) + r.value;
    }
  }

  lemma PrependEmpty<T>(r: Result<seq<T>, LoadError>)
    ensures Prepend([], r) == r
  {
    if r.Success? {
      assert [] + r.value == r.value;
    }
  }

  /** The tree loop ends with the error of the first `_` that fails to read. */
  lemma ReadTreesStops<T>(ts: seq<Element>, k: nat, read: Element -> Result<T, LoadError>, weaks: seq<T>, we: Element, e: LoadError)
    requires k < |ts| && FirstChild(ts[k], "_") == Some(we) && read(we) == Failure(e)
    requires LoadTrees(ts, 0, read) == Prepend(weaks, LoadTrees(ts, k, read))
    ensures LoadTrees(ts, 0, read) == Failure(e)
  {
    assert LoadTrees(ts, k, read) == Failure(e);
  }

  /** The tree loop keeps its invariant across a tree without a `_` child. */
  lemma ReadTreesSkip<T>(ts: seq<Element>, k: nat, read: Element -> Result<T, LoadError>, weaks: seq<T>)
    requires k < |ts| && FirstChild(ts[k], "_").None?
    requires LoadTrees(ts, 0, read) == Prepend(weaks, LoadTrees(ts, k, read))
    ensures LoadTrees(ts, 0, read) == Prepend(weaks, LoadTrees(ts, k + 1, read))
  {
    assert LoadTrees(ts, k, read) == LoadTrees(ts, k + 1, read);
  }

  /** A loop over `xs` that meets an item failing to read ends with that item's error. */
  lemma ReadEachStops<X, T>(xs: seq<X>, k: nat, read: X -> Result<T, LoadError>, acc: seq<T>, e: LoadError)
    requires k < |xs| && read(xs[k]) == Failure(e)
    requires ReadEach(xs, 0, read) == Prepend(acc, ReadEach(xs, k, read))
    ensures ReadEach(xs, 0, read) == Failure(e)
  {
    assert ReadEach(xs, k, read) == Failure(e);
  }

  /** The tree loop keeps its invariant across a tree whose first `_` is the weak classifier `w`. */
  lemma ReadTreesStep<T>(ts: seq<Element>, k: nat, read: Element -> Result<T, LoadError>, weaks: seq<T>, we: Element, w: T)
    requires k < |ts| && FirstChild(ts[k], "_") == Some(we) && read(we) == Success(w)
    requires LoadTrees(ts, 0, read) == Prepend(weaks, LoadTrees(ts, k, read))
    ensures LoadTrees(ts, 0, read) == Prepend(weaks + [w], LoadTrees(ts, k + 1, read))
  {
    assert LoadTrees(ts, k, read) == Prepend([w], LoadTrees(ts, k + 1, read));
    PrependStep(weaks, w, LoadTrees(ts, k + 1, read));
  }

  /** The stage loop keeps its invariant across one stage. */
  lemma ReadStagesStep(ses: seq<Element>, k: nat, stages: seq<HaarStage>, stage: HaarStage)
    requires k < |ses| && LoadStage(ses[k]) == Success(stage)
    requires ReadEach(ses, 0, LoadStage) == Prepend(stages, ReadEach(ses, k, LoadStage))
    ensures ReadEach(ses, 0, LoadStage) == Prepend(stages + [stage], ReadEach(ses, k + 1, LoadStage))
  {
    assert ReadEach(ses, k, LoadStage) == Prepend([stage], ReadEach(ses, k + 1, LoadStage));
    PrependStep(stages, stage, ReadEach(ses, k + 1, LoadStage));
  }

  /** The feature of a weak element: its rectangles (the shared rectangle loop) and its `Tilted` flag. */
  method ReadFeature(fe: Element) returns (r: Result<HaarFeature, LoadError>)
    ensures r == LoadFeature(fe)
  {
    var feature := HaarFeature([], false);
    var rectsElem := FirstChild(fe, "rects");
    if rectsElem.Some? {
      var rects := C.ParseRectangles(ChildrenNamed(rectsElem.value, "_"));
      if rects.Failure? { return Failure(Read(rects.error)); }
      feature := feature.(rects := rects.value);
    }
    var tiltedElem := FirstChild(fe, "tilted");
    feature := feature.(tilted := tiltedElem.Some? && Trim(Value(tiltedElem.value)) == "1");
    return Success(feature);
  }

  /** The body of the tree loop for the weak element `we`: its properties set one after the other. */
  method ReadWeak(we: Element) returns (r: Result<HaarWeakClassifier, LoadError>)
    ensures r == LoadWeak(we)
  {
    var wc := HaarWeakClassifier(None, 0.0, 0.0, 0.0);
    var featureElem := FirstChild(we, "feature");
    if featureElem.Some? {
      var feature := ReadFeature(featureElem.value);
      if feature.Failure? { return Failure(feature.error); }
      wc := wc.(feature := Some(feature.value));
    }
    var threshold := NumberUnder(we, "threshold");
    if threshold.Failure? { return Failure(threshold.error); }
    wc := wc.(threshold := threshold.value);
    var leftElem := FirstChild(we, "left_val");
    var rightElem := FirstChild(we, "right_val");
    if leftElem.Some? && rightElem.Some? {
      var left := NumberOf(leftElem.value);
      if left.Failure? { return Failure(left.error); }
      var right := NumberOf(rightElem.value);
      if right.Failure? { return Failure(right.error); }
      wc := wc.(leftVal := left.value, rightVal := right.value);
    } else {
      wc := wc.(leftVal := 0.0, rightVal := 1.0);
    }
    return Success(wc);
  }

  /** The `foreach (XElement tree in treesElem.Elements("_"))` loop. */
  method ReadTrees(ts: seq<Element>) returns (r: Result<seq<HaarWeakClassifier>, LoadError>)
    ensures r == LoadTrees(ts, 0, LoadWeak)
  {
    var weaks: seq<HaarWeakClassifier> := [];
    var k := 0;
    PrependEmpty(LoadTrees(ts, 0, LoadWeak));
    while k < |ts|
      invariant 0 <= k <= |ts|
      invariant LoadTrees(ts, 0, LoadWeak) == Prepend(weaks, LoadTrees(ts, k, LoadWeak))
    {
      var weakElem := FirstChild(ts[k], "_");
      if weakElem.Some? {
        var wc := ReadWeak(weakElem.value);
        if wc.Failure? {
          ReadTreesStops(ts, k, LoadWeak, weaks, weakElem.value, wc.error);
          return Failure(wc.error);
        }
        ReadTreesStep(ts, k, LoadWeak, weaks, weakElem.value, wc.value);
        weaks := weaks + [wc.value];
      } else {
        ReadTreesSkip(ts, k, LoadWeak, weaks);
      }
      k := k + 1;
    }
    assert weaks + [] == weaks;
    return Success(weaks);
  }

  /** One pass of the stage loop: the threshold, then the trees. */
  method ReadStage(se: Element) returns (r: Result<HaarStage, LoadError>)
    ensures r == LoadStage(se)
  {
    var threshold := NumberUnder(se, "stageThreshold");
    if threshold.Failure? { return Failure(threshold.error); }
    var stage := HaarStage(threshold.value, []);
    var treesElem := FirstChild(se, "trees");
    if treesElem.Some? {
      var weaks := ReadTrees(ChildrenNamed(treesElem.value, "_"));
      if weaks.Failure? { return Failure(weaks.error); }
      stage := stage.(weakClassifiers := weaks.value);
    }
    return Success(stage);
  }

  /** The `foreach (var stageElem in dashElements)` loop. */
  method ReadStages(ses: seq<Element>) returns (r: Result<seq<HaarStage>, LoadError>)
    ensures r == ReadEach(ses, 0, LoadStage)
  {
    var stages: seq<HaarStage> := [];
    var k := 0;
    PrependEmpty(ReadEach(ses, 0, LoadStage));
    while k < |ses|
      invariant 0 <= k <= |ses|
      invariant ReadEach(ses, 0, LoadStage) == Prepend(stages, ReadEach(ses, k, LoadStage))
    {
      var stage := ReadStage(ses[k]);
      if stage.Failure? {
        ReadEachStops(ses, k, LoadStage, stages, stage.error);
        return Failure(stage.error);
      }
      ReadStagesStep(ses, k, stages, stage.value);
      stages := stages + [stage.value];
      k := k + 1;
    }
    assert stages + [] == stages;
    return Success(stages);
  }

  /** `HaarCascade.Load(XDocument)`, over the document's root element. */
  method Load(root: Element) returns (r: Result<Cascade, LoadError>)
    ensures r == LoadDocument(root)
  {
    var cascadeElem := FirstChild(root, "cascade");
    if cascadeElem.None? { return Failure(MissingCascade); }
    var ce := cascadeElem.value;
    var width, height := DefaultSize, DefaultSize;
    var sizeElem := FirstChild(ce, "size");
    if sizeElem.Some? {
      var sizeParts := Split(Trim(Value(sizeElem.value)));
      if |sizeParts| == 2 && ParseInt32(sizeParts[0]).Some? && ParseInt32(sizeParts[1]).Some? {
        width, height := ParseInt32(sizeParts[0]).value, ParseInt32(sizeParts[1]).value;
      }
    }
    var stagesElem := FirstChild(ce, "stages");
    if stagesElem.None? { return Failure(MissingStages); }
    var stages := ReadStages(ChildrenNamed(stagesElem.value, "_"));
    if stages.Failure? { return Failure(stages.error); }
    return Success(Cascade(width, height, stages.value));
  }

  // ----- Properties of the loader -----

  /**
   * The two explicit exceptions: the document is refused with "missing
   * `<cascade>`" exactly when the root has no `<cascade>` child, and with
   * "missing `<stages>`" exactly when the cascade has no `<stages>` child;
   * every failure below `<stages>` is a read error.
   */
  lemma MissingCascadeOrStagesIsRefused(root: Element)
    ensures LoadDocument(root) == Failure(MissingCascade) <==> FirstChild(root, "cascade").None?
    ensures LoadDocument(root) == Failure(MissingStages) <==>
      FirstChild(root, "cascade").Some? && FirstChild(FirstChild(root, "cascade").value, "stages").None?
  {
  }

  /** One stage per `_` under `<stages>`, in document order. */
  lemma OneStagePerElement(root: Element)
    requires LoadDocument(root).Success?
    ensures FirstChild(root, "cascade").Some? && FirstChild(FirstChild(root, "cascade").value, "stages").Some?
    ensures var ses := ChildrenNamed(FirstChild(FirstChild(root, "cascade").value, "stages").value, "_");
      |LoadDocument(root).value.stages| == |ses| &&
      forall m :: 0 <= m < |ses| ==> LoadStage(ses[m]) == Success(LoadDocument(root).value.stages[m])
  {
    var ses := ChildrenNamed(FirstChild(FirstChild(root, "cascade").value, "stages").value, "_");
    forall m | 0 <= m < |ses|
      ensures LoadStage(ses[m]) == Success(LoadDocument(root).value.stages[m])
    {
      ReadEachAt(ses, 0, m, LoadStage);
    }
  }

  /** The first `_` of every tree that has one, in order. */
  function WeakElements(ts: seq<Element>, k: nat): seq<Element>
    requires k <= |ts|
    decreases |ts| - k
  {
    if k == |ts| then []
    else
      match FirstChild(ts[k], "_")
      case None => WeakElements(ts, k + 1)
      case Some(we) => [we] + WeakElements(ts, k + 1)
  }

  /**
   * The tree loop reads exactly the first `_` of each tree that has one, in
   * order, and nothing else: it is the same as reading those elements one by one.
   */
  lemma {:induction false} TreesAreTheirFirstWeaks<T>(ts: seq<Element>, k: nat, read: Element -> Result<T, LoadError>)
    requires k <= |ts|
    ensures LoadTrees(ts, k, read) == ReadEach(WeakElements(ts, k), 0, read)
    decreases |ts| - k
  {
    if k < |ts| {
      TreesAreTheirFirstWeaks(ts, k + 1, read);
      if FirstChild(ts[k], "_").Some? {
        TreeWithWeak(ts, k, read, FirstChild(ts[k], "_").value);
      } else {
        TreeWithoutWeak(ts, k, read);
      }
    }
  }

  /** A tree whose first `_` is `we` contributes `we`, read first. */
  lemma TreeWithWeak<T>(ts: seq<Element>, k: nat, read: Element -> Result<T, LoadError>, we: Element)
    requires k < |ts| && FirstChild(ts[k], "_") == Some(we)
    requires LoadTrees(ts, k + 1, read) == ReadEach(WeakElements(ts, k + 1), 0, read)
    ensures LoadTrees(ts, k, read) == ReadEach(WeakElements(ts, k), 0, read)
  {
    assert WeakElements(ts, k) == [we] + WeakElements(ts, k + 1);
    ReadEachCons(we, WeakElements(ts, k + 1), read);
  }

  /** A tree without a `_` child contributes nothing. */
  lemma TreeWithoutWeak<T>(ts: seq<Element>, k: nat, read: Element -> Result<T, LoadError>)
    requires k < |ts| && FirstChild(ts[k], "_").None?
    requires LoadTrees(ts, k + 1, read) == ReadEach(WeakElements(ts, k + 1), 0, read)
    ensures LoadTrees(ts, k, read) == ReadEach(WeakElements(ts, k), 0, read)
  {
    assert WeakElements(ts, k) == WeakElements(ts, k + 1);
  }

  /**
   * The leaves of a weak classifier: the numbers in `left_val` and
   * `right_val` when both are present, and 0 and 1 when either is missing.
   */
  lemma LeavesOfWeak(we: Element)
    requires LoadWeak(we).Success?
    ensures var w := LoadWeak(we).value;
      if FirstChild(we, "left_val").Some? && FirstChild(we, "right_val").Some? then
        ParseDouble(Value(FirstChild(we, "left_val").value)) == Some(w.leftVal) &&
        ParseDouble(Value(FirstChild(we, "right_val").value)) == Some(w.rightVal)
      else w.leftVal == 0.0 && w.rightVal == 1.0
  {
  }

  /** A `<size>` holding two `int`s written in decimal and separated by a space yields those two numbers. */
  lemma SizeOfTwoInts(sizeElem: Element, w: int, h: int)
    requires Int32Min <= w <= Int32Max && Int32Min <= h <= Int32Max
    requires Value(sizeElem) == FormatInt(w) + " " + FormatInt(h)
    ensures BaseSize(Some(sizeElem)) == (w, h)
  {
    var a, b := FormatInt(w), FormatInt(h);
    FormatIntIsToken(w);
    FormatIntIsToken(h);
    var s := a + " " + b;
    assert s[0] == a[0] && s[|s| - 1] == b[|b| - 1];
    TrimWithoutWhiteSpaceAtEnds(s);
    assert Join([a, b]) == s by {
      assert [a, b][1..] == [b];
    }
    SplitJoin([a, b]);
    ParseInt32OfFormatInt(w);
    ParseInt32OfFormatInt(h);
  }

  /** A decimal `int` is a non-empty token without spaces, starting and ending with no white space. */
  lemma FormatIntIsToken(n: int)
    ensures var t := FormatInt(n);
      t != [] && ' ' !in t && !IsWhiteSpace(t[0]) && !IsWhiteSpace(t[|t| - 1])
  {
    var d := if n < 0 then NatToString(-n) else NatToString(n);
    assert forall k :: 0 <= k < |d| ==> IsDigit(d[k]);
    if n < 0 {
      assert FormatInt(n) == "-" + d;
      assert forall k :: 1 <= k < |FormatInt(n)| ==> FormatInt(n)[k] == d[k - 1];
    }
  }

  lemma TrimWithoutWhiteSpaceAtEnds(s: string)
    requires s != [] && !IsWhiteSpace(s[0]) && !IsWhiteSpace(s[|s| - 1])
    ensures Trim(s) == s
  {
    assert TrimStartIndex(s, 0) == 0;
    assert TrimEndIndex(s, 0, |s|) == |s|;
  }

  /** `s` is `1` with nothing but white space around it. */
  predicate OneAmidWhiteSpace(s: string)
  {
    exists lo :: 0 <= lo < |s| && s[lo] == '1' &&
      (forall k :: 0 <= k < lo ==> IsWhiteSpace(s[k])) &&
      (forall k :: lo < k < |s| ==> IsWhiteSpace(s[k]))
  }

  /**
   * `Tilted` is set exactly when the text of `<tilted>` is `1` with nothing
   * but white space around it.
   */
  lemma TiltedIffOne(e: Element)
    ensures IsTilted(Some(e)) <==> OneAmidWhiteSpace(Value(e))
  {
    var s := Value(e);
    if IsTilted(Some(e)) {
      TiltedIsOne(s);
    }
    if OneAmidWhiteSpace(s) {
      OneIsTilted(s);
    }
  }

  lemma TiltedIsOne(s: string)
    requires Trim(s) == "1"
    ensures OneAmidWhiteSpace(s)
  {
    TrimRemovesWhiteSpace(s);
    var lo, hi :| 0 <= lo <= hi <= |s| && Trim(s) == s[lo..hi] &&
      (forall k :: 0 <= k < lo ==> IsWhiteSpace(s[k])) &&
      (forall k :: hi <= k < |s| ==> IsWhiteSpace(s[k]));
    assert hi == lo + 1 && s[lo] == s[lo..hi][0];
  }

  lemma OneIsTilted(s: string)
    requires OneAmidWhiteSpace(s)
    ensures Trim(s) == "1"
  {
    var lo :| 0 <= lo < |s| && s[lo] == '1' &&
      (forall k :: 0 <= k < lo ==> IsWhiteSpace(s[k])) &&
      (forall k :: lo < k < |s| ==> IsWhiteSpace(s[k]));
    var a := TrimStartIndex(s, 0);
    TrimStartIndexSkips(s, 0);
    assert !IsWhiteSpace(s[lo]);
    assert a == lo;
    var b := TrimEndIndex(s, a, |s|);
    TrimEndIndexSkips(s, a, |s|);
    assert b == lo + 1;
    assert s[a..b] == [s[lo]];
  }
}
