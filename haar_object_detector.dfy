/**
 * The multi-scale window search of `HaarCascadeDetection/HaarObjectDetector.cs`.
 *
 * The detector holds only the cascade it was built with (a classifier of
 * `HaarCascadeClassifier.cs`), so the search takes that cascade as a
 * parameter.  The image is a grid of grey levels indexed `[x, y]`.  Windows
 * start at the cascade's base size; after each full pass the scale is
 * multiplied by the factor and the window size is the truncated product of
 * the base size and the scale.  At each size the window slides over rows and
 * columns by `max(2, windowWidth / 10)`, and every window the cascade accepts
 * is reported, in scan order, with no merging.
 *
 * The search is specified by `ScanFrom`, a function that follows the loops
 * from a level, row and column on and tags each detection with its level.
 */
module HaarObjectDetector {
  import opened Wrappers
  import opened CsNumerics
  import opened IntegralHelper
  import C = HaarCascadeClassifier

  // ----- What the search needs of the cascade -----

  /** A rectangle of at least one pixel that lies inside the base window. */
  predicate RectInBase(r: C.HaarRectangle, baseWidth: int, baseHeight: int)
  {
    0 <= r.x && 0 <= r.y && 1 <= r.width && 1 <= r.height &&
    r.x + r.width <= baseWidth && r.y + r.height <= baseHeight
  }

  predicate WeakWellFormed(w: C.HaarWeakClassifier, baseWidth: int, baseHeight: int)
  {
    forall j :: 0 <= j < |w.feature.rectangles| ==> RectInBase(w.feature.rectangles[j], baseWidth, baseHeight)
  }

  /**
   * A cascade whose every rectangle sum the search reads lies inside the
   * table: a base size of at least one pixel and every rectangle inside the
   * base window.  A weak classifier may still lack the leaf it picks; the
   * search then fails (`Throws`).
   */
  predicate WellFormed(c: C.Classifier)
  {
    c.baseWidth >= 1 && c.baseHeight >= 1 &&
    forall s, k :: 0 <= s < |c.stages| && 0 <= k < |c.stages[s].weakClassifiers| ==>
      WeakWellFormed(c.stages[s].weakClassifiers[k], c.baseWidth, c.baseHeight)
  }

  // ----- Window sizes and steps -----

  /** `(int)(base * currentScale)` once the scale has been multiplied by `f` `k` times. */
  function WindowSize(base: int, f: real, k: nat): int
  {
    Truncate(base as real * Pow(f, k))
  }

  /** The first pass uses the base size. */
  lemma WindowSizeAtStart(base: int, f: real)
    ensures WindowSize(base, f, 0) == base
  {
    var p0 := Pow(f, 0);
    assert p0 == 1.0;
    assert base as real * p0 == base as real;
  }

  /** Window sizes are at least the base size and never shrink from one pass to the next. */
  lemma WindowSizeGrows(base: int, f: real, j: nat, k: nat)
    requires base >= 1 && f >= 1.0 && j <= k
    ensures base <= WindowSize(base, f, j) <= WindowSize(base, f, k)
  {
    PowMonotone(f, 0, j);
    PowMonotone(f, j, k);
    var pj, pk := Pow(f, j), Pow(f, k);
    SizesGrow(base, pj, pk);
    assert WindowSize(base, f, j) == Truncate(base as real * pj);
    assert WindowSize(base, f, k) == Truncate(base as real * pk);
  }

  /** Truncated multiples of `base` by `1 <= pj <= pk`. */
  lemma SizesGrow(base: int, pj: real, pk: real)
    requires base >= 1 && 1.0 <= pj <= pk
    ensures base <= Truncate(base as real * pj) <= Truncate(base as real * pk)
  {
    ScaledBounds(base as real, pj, pk);
    TruncateBounds(base, base as real * pj, base as real * pk);
  }

  lemma ScaledBounds(b: real, pj: real, pk: real)
    requires b >= 1.0 && 1.0 <= pj <= pk
    ensures b <= b * pj <= b * pk
  {
    MulGrows(b, 1.0, pj);
    MulGrows(b, pj, pk);
  }

  lemma TruncateBounds(base: int, xj: real, xk: real)
    requires 1 <= base && base as real <= xj <= xk
    ensures base <= Truncate(xj) <= Truncate(xk)
  {
  }

  lemma MulGrows(b: real, x: real, y: real)
    requires b >= 0.0 && x <= y
    ensures b * x <= b * y
  {
    assert b * (y - x) >= 0.0;
  }

  lemma TruncateGrows(x: real, y: real)
    requires 0.0 <= x <= y
    ensures Truncate(x) <= Truncate(y)
  {
  }

  /** `Math.Max(2, windowWidth / 10)`. */
  function Step(windowWidth: int): (step: int)
    ensures step >= 2
    ensures windowWidth >= 20 ==> step * 10 <= windowWidth < step * 10 + 10
  {
    Max(2, CsDiv(windowWidth, 10))
  }

  /** A number of passes after which no window fits an image this wide. */
  function LevelBound(imageWidth: int, f: real): nat
    requires f > 1.0
  {
    if imageWidth <= 0 then 0
    else
      var q := imageWidth as real / (f - 1.0);
      assert q >= 0.0;
      q.Floor + 1
  }

  /**
   * Termination of the size loop: a window of pass `k` still fits only while
   * `k` is below `LevelBound`, since by Bernoulli's inequality the window
   * grows by at least `f - 1` pixels per pass.
   */
  lemma FitsBelowBound(base: int, f: real, k: nat, imageWidth: int)
    requires base >= 1 && f > 1.0 && WindowSize(base, f, k) <= imageWidth
    ensures k < LevelBound(imageWidth, f)
  {
    Bernoulli(f, k);
    WindowSizeGrows(base, f, 0, k);
    var p := Pow(f, k);
    GrowthBelow(base as real, p, k as real * (f - 1.0), WindowSize(base, f, k) as real, imageWidth as real);
    BelowQuotient(k, f, imageWidth);
  }

  /** A truncated product `n` of `b >= 1` and `p >= 1 + g` bounds `g` by any `w >= n`. */
  lemma GrowthBelow(b: real, p: real, g: real, n: real, w: real)
    requires b >= 1.0 && p >= 1.0 + g && g >= 0.0 && b * p < n + 1.0 && n <= w
    ensures g < w
  {
    assert b * p >= p;
  }

  /** `k * (f - 1) < w`: `k` is below `LevelBound(w, f)`. */
  lemma BelowQuotient(k: nat, f: real, w: int)
    requires f > 1.0 && (k as real) * (f - 1.0) < w as real
    ensures k < LevelBound(w, f)
  {
    var d := f - 1.0;
    assert (k as real) * d >= 0.0;
    var q := w as real / d;
    assert q * d == w as real;
    assert k as real < q;
  }

  /** The windows of pass `k` fit inside the image. */
  predicate Fits(c: C.Classifier, imageWidth: int, imageHeight: int, f: real, k: nat)
  {
    WindowSize(c.baseWidth, f, k) <= imageWidth && WindowSize(c.baseHeight, f, k) <= imageHeight
  }

  /** `v` is one of `0, step, 2 step, …`: a position that `+= step` from 0 reaches. */
  predicate Reached(v: int, step: int)
    requires step > 0
    decreases v
  {
    v == 0 || (v >= step && Reached(v - step, step))
  }

  /** Two reached positions differ by at least a step. */
  lemma {:induction false} ReachedApart(a: int, b: int, step: int)
    requires step > 0 && Reached(a, step) && Reached(b, step) && a < b
    ensures a + step <= b
    decreases b
  {
    assert b != 0 by {
      assert a == 0 || a >= step;
    }
    var b' := b - step;
    if a < b' {
      ReachedApart(a, b', step);
    } else if a > b' {
      ReachedApart(b', a, step);
    }
  }

  // ----- The search, specified -----

  /** A detection and the pass (the number of times the scale grew) that made it. */
  datatype Hit = Hit(level: nat, rect: Rect)

  /** The cascade accepts the window, with its rectangle sums read from the image itself. */
  predicate Accepted(c: C.Classifier, src: array2<int>, window: Rect)
    reads src
  {
    var p := C.Placement(window, c.baseWidth, c.baseHeight);
    C.CascadeDefined(c.stages, Image(src), p) && C.Accepts(c.stages, Image(src), p)
  }

  /**
   * Evaluating the cascade on the window reads a leaf past the end of some
   * `LeafValues`: the cascade is not defined on it, with its rectangle sums
   * read from the image itself.
   */
  predicate Throws(c: C.Classifier, src: array2<int>, window: Rect)
    reads src
  {
    !C.CascadeDefined(c.stages, Image(src), C.Placement(window, c.baseWidth, c.baseHeight))
  }

  /**
   * The detections the search makes from pass `k`, row `y` and column `x` on,
   * in the order it makes them.
   */
  function ScanFrom(c: C.Classifier, src: array2<int>, f: real, k: nat, y: int, x: int): seq<Hit>
    reads src
    requires c.baseWidth >= 1 && c.baseHeight >= 1 && f > 1.0
    decreases LevelBound(src.Length0, f) - k, src.Length1 - y, src.Length0 - x, 1
  {
    ScanAt(c, src, f, k, y, x)
  }

  /** One step of the loops at pass `k`, row `y`, column `x`: the body of `ScanFrom`. */
  function ScanAt(c: C.Classifier, src: array2<int>, f: real, k: nat, y: int, x: int): seq<Hit>
    reads src
    requires c.baseWidth >= 1 && c.baseHeight >= 1 && f > 1.0
    decreases LevelBound(src.Length0, f) - k, src.Length1 - y, src.Length0 - x, 0
  {
    var ww := WindowSize(c.baseWidth, f, k);
    var wh := WindowSize(c.baseHeight, f, k);
    var step := Step(ww);
    WindowSizeGrows(c.baseWidth, f, k, k);
    WindowSizeGrows(c.baseHeight, f, k, k);
    if !(ww <= src.Length0 && wh <= src.Length1) then []
    else if y > src.Length1 - wh - step then
      FitsBelowBound(c.baseWidth, f, k, src.Length0);
      ScanFrom(c, src, f, k + 1, 0, 0)
    else if x > src.Length0 - ww - step then
      ScanFrom(c, src, f, k, y + step, 0)
    else
      var window := Rect(x, y, ww, wh);
      (if Accepted(c, src, window) then [Hit(k, window)] else []) + ScanFrom(c, src, f, k, y, x + step)
  }

  /**
   * The search, from pass `k`, row `y` and column `x` on, comes to a window
   * on which the cascade throws: the loops of `ScanFrom`, asking of each
   * window whether it throws.
   */
  predicate ThrowsFrom(c: C.Classifier, src: array2<int>, f: real, k: nat, y: int, x: int)
    reads src
    requires c.baseWidth >= 1 && c.baseHeight >= 1 && f > 1.0
    decreases LevelBound(src.Length0, f) - k, src.Length1 - y, src.Length0 - x, 1
  {
    ThrowsAt(c, src, f, k, y, x)
  }

  /** One step of the loops at pass `k`, row `y`, column `x`: the body of `ThrowsFrom`. */
  predicate ThrowsAt(c: C.Classifier, src: array2<int>, f: real, k: nat, y: int, x: int)
    reads src
    requires c.baseWidth >= 1 && c.baseHeight >= 1 && f > 1.0
    decreases LevelBound(src.Length0, f) - k, src.Length1 - y, src.Length0 - x, 0
  {
    var ww := WindowSize(c.baseWidth, f, k);
    var wh := WindowSize(c.baseHeight, f, k);
    var step := Step(ww);
    WindowSizeGrows(c.baseWidth, f, k, k);
    WindowSizeGrows(c.baseHeight, f, k, k);
    if !(ww <= src.Length0 && wh <= src.Length1) then false
    else if y > src.Length1 - wh - step then
      FitsBelowBound(c.baseWidth, f, k, src.Length0);
      ThrowsFrom(c, src, f, k + 1, 0, 0)
    else if x > src.Length0 - ww - step then
      ThrowsFrom(c, src, f, k, y + step, 0)
    else
      Throws(c, src, Rect(x, y, ww, wh)) || ThrowsFrom(c, src, f, k, y, x + step)
  }

  /** What `DetectObjects` reports: the rectangles of the hits, in order. */
  function Rects(hits: seq<Hit>): (rs: seq<Rect>)
    ensures |rs| == |hits| && forall i :: 0 <= i < |hits| ==> rs[i] == hits[i].rect
  {
    seq(|hits|, i requires 0 <= i < |hits| => hits[i].rect)
  }

  /**
   * `h` is a window the search visits: its pass fits the image, it has that
   * pass's size, and its row and column are reached by the step of that pass
   * without passing `H - wh - step` and `W - ww - step`.
   */
  predicate Visited(c: C.Classifier, imageWidth: int, imageHeight: int, f: real, h: Hit)
  {
    var ww := WindowSize(c.baseWidth, f, h.level);
    var wh := WindowSize(c.baseHeight, f, h.level);
    var step := Step(ww);
    Fits(c, imageWidth, imageHeight, f, h.level) &&
    h.rect.width == ww && h.rect.height == wh &&
    h.rect.y <= imageHeight - wh - step && Reached(h.rect.y, step) &&
    h.rect.x <= imageWidth - ww - step && Reached(h.rect.x, step)
  }

  /** `h` comes at or after pass `k`, row `y`, column `x` in scan order. */
  predicate NotBefore(h: Hit, k: nat, y: int, x: int)
  {
    h.level > k || (h.level == k && (h.rect.y > y || (h.rect.y == y && h.rect.x >= x)))
  }

  /** Scan order: by pass, then by row, then by column. */
  predicate Before(a: Hit, b: Hit)
  {
    a.level < b.level ||
    (a.level == b.level && (a.rect.y < b.rect.y || (a.rect.y == b.rect.y && a.rect.x < b.rect.x)))
  }

  /** A position of the loops: row `y` and column `x` are reached by the step of pass `k`. */
  predicate AtPosition(c: C.Classifier, f: real, k: nat, y: int, x: int)
  {
    var step := Step(WindowSize(c.baseWidth, f, k));
    Reached(y, step) && Reached(x, step)
  }

  // ----- Properties of the search -----

  /** Every detection is a visited window that the cascade accepts, at or after the position it was started from. */
  lemma {:induction false} ScanFromSound(c: C.Classifier, src: array2<int>, f: real, k: nat, y: int, x: int)
    requires c.baseWidth >= 1 && c.baseHeight >= 1 && f > 1.0 && AtPosition(c, f, k, y, x)
    ensures forall h :: h in ScanFrom(c, src, f, k, y, x) ==>
      Visited(c, src.Length0, src.Length1, f, h) && Accepted(c, src, h.rect) && NotBefore(h, k, y, x)
    decreases LevelBound(src.Length0, f) - k, src.Length1 - y, src.Length0 - x
  {
    assert ScanFrom(c, src, f, k, y, x) == ScanAt(c, src, f, k, y, x);
    var ww := WindowSize(c.baseWidth, f, k);
    var wh := WindowSize(c.baseHeight, f, k);
    var step := Step(ww);
    WindowSizeGrows(c.baseWidth, f, k, k);
    WindowSizeGrows(c.baseHeight, f, k, k);
    if !(ww <= src.Length0 && wh <= src.Length1) {
    } else if y > src.Length1 - wh - step {
      FitsBelowBound(c.baseWidth, f, k, src.Length0);
      ScanFromSound(c, src, f, k + 1, 0, 0);
    } else if x > src.Length0 - ww - step {
      assert Reached(y + step, step);
      ScanFromSound(c, src, f, k, y + step, 0);
    } else {
      assert Reached(x + step, step);
      ScanFromSound(c, src, f, k, y, x + step);
    }
  }

  /** Every visited window that the cascade accepts, at or after the start position, is detected. */
  lemma {:induction false} ScanFromComplete(c: C.Classifier, src: array2<int>, f: real, k: nat, y: int, x: int, h: Hit)
    requires c.baseWidth >= 1 && c.baseHeight >= 1 && f > 1.0 && AtPosition(c, f, k, y, x)
    requires Visited(c, src.Length0, src.Length1, f, h) && Accepted(c, src, h.rect) && NotBefore(h, k, y, x)
    ensures h in ScanFrom(c, src, f, k, y, x)
    decreases LevelBound(src.Length0, f) - k, src.Length1 - y, src.Length0 - x
  {
    assert ScanFrom(c, src, f, k, y, x) == ScanAt(c, src, f, k, y, x);
    var ww := WindowSize(c.baseWidth, f, k);
    var wh := WindowSize(c.baseHeight, f, k);
    var step := Step(ww);
    WindowSizeGrows(c.baseWidth, f, k, h.level);
    WindowSizeGrows(c.baseHeight, f, k, h.level);
    if !(ww <= src.Length0 && wh <= src.Length1) {
      assert false;
    } else if y > src.Length1 - wh - step {
      FitsBelowBound(c.baseWidth, f, k, src.Length0);
      assert h.level > k;
      ScanFromComplete(c, src, f, k + 1, 0, 0, h);
    } else if x > src.Length0 - ww - step {
      if h.level == k {
        ReachedApart(y, h.rect.y, step);
      }
      assert Reached(y + step, step);
      ScanFromComplete(c, src, f, k, y + step, 0, h);
    } else if h != Hit(k, Rect(x, y, ww, wh)) {
      if h.level == k && h.rect.y == y {
        ReachedApart(x, h.rect.x, step);
      }
      assert Reached(x + step, step);
      ScanFromComplete(c, src, f, k, y, x + step, h);
    }
  }

  /** Strictly in scan order. */
  predicate Sorted(hits: seq<Hit>)
  {
    forall i, j :: 0 <= i < j < |hits| ==> Before(hits[i], hits[j])
  }

  lemma SortedCons(a: Hit, rest: seq<Hit>)
    requires Sorted(rest) && forall h :: h in rest ==> Before(a, h)
    ensures Sorted([a] + rest)
  {
    var hits := [a] + rest;
    forall i, j | 0 <= i < j < |hits|
      ensures Before(hits[i], hits[j])
    {
      assert hits[j] == rest[j - 1];
      if i > 0 {
        assert hits[i] == rest[i - 1];
      }
    }
  }

  /** The detections come out strictly in scan order: by pass, then row, then column. */
  lemma {:induction false} ScanFromSorted(c: C.Classifier, src: array2<int>, f: real, k: nat, y: int, x: int)
    requires c.baseWidth >= 1 && c.baseHeight >= 1 && f > 1.0 && AtPosition(c, f, k, y, x)
    ensures Sorted(ScanFrom(c, src, f, k, y, x))
    decreases LevelBound(src.Length0, f) - k, src.Length1 - y, src.Length0 - x
  {
    assert ScanFrom(c, src, f, k, y, x) == ScanAt(c, src, f, k, y, x);
    var ww := WindowSize(c.baseWidth, f, k);
    var wh := WindowSize(c.baseHeight, f, k);
    var step := Step(ww);
    WindowSizeGrows(c.baseWidth, f, k, k);
    WindowSizeGrows(c.baseHeight, f, k, k);
    if !(ww <= src.Length0 && wh <= src.Length1) {
    } else if y > src.Length1 - wh - step {
      FitsBelowBound(c.baseWidth, f, k, src.Length0);
      ScanFromSorted(c, src, f, k + 1, 0, 0);
    } else if x > src.Length0 - ww - step {
      assert Reached(y + step, step);
      ScanFromSorted(c, src, f, k, y + step, 0);
    } else {
      assert Reached(x + step, step);
      ScanFromSorted(c, src, f, k, y, x + step);
      ScanFromSound(c, src, f, k, y, x + step);
      var window := Rect(x, y, ww, wh);
      var rest := ScanFrom(c, src, f, k, y, x + step);
      if Accepted(c, src, window) {
        SortedCons(Hit(k, window), rest);
      }
    }
  }

  /**
   * The search from its start: a window is detected exactly when it is a
   * visited window that the cascade accepts, and the detections are in scan
   * order.
   */
  lemma DetectionsAreAcceptedWindows(c: C.Classifier, src: array2<int>, f: real, h: Hit)
    requires c.baseWidth >= 1 && c.baseHeight >= 1 && f > 1.0
    ensures h in ScanFrom(c, src, f, 0, 0, 0) <==> Visited(c, src.Length0, src.Length1, f, h) && Accepted(c, src, h.rect)
    ensures Sorted(ScanFrom(c, src, f, 0, 0, 0))
  {
    ScanFromSound(c, src, f, 0, 0, 0);
    if Visited(c, src.Length0, src.Length1, f, h) && Accepted(c, src, h.rect) {
      ScanFromComplete(c, src, f, 0, 0, 0, h);
    }
    ScanFromSorted(c, src, f, 0, 0, 0);
  }

  /** When the search throws, it is on a visited window at or after the position it was started from. */
  lemma {:induction false} ThrowsFromSound(c: C.Classifier, src: array2<int>, f: real, k: nat, y: int, x: int)
    requires c.baseWidth >= 1 && c.baseHeight >= 1 && f > 1.0 && AtPosition(c, f, k, y, x)
    requires ThrowsFrom(c, src, f, k, y, x)
    ensures exists h :: Visited(c, src.Length0, src.Length1, f, h) && Throws(c, src, h.rect) && NotBefore(h, k, y, x)
    decreases LevelBound(src.Length0, f) - k, src.Length1 - y, src.Length0 - x
  {
    assert ThrowsFrom(c, src, f, k, y, x) == ThrowsAt(c, src, f, k, y, x);
    var ww := WindowSize(c.baseWidth, f, k);
    var wh := WindowSize(c.baseHeight, f, k);
    var step := Step(ww);
    WindowSizeGrows(c.baseWidth, f, k, k);
    WindowSizeGrows(c.baseHeight, f, k, k);
    if y > src.Length1 - wh - step {
      FitsBelowBound(c.baseWidth, f, k, src.Length0);
      ThrowsFromSound(c, src, f, k + 1, 0, 0);
    } else if x > src.Length0 - ww - step {
      assert Reached(y + step, step);
      ThrowsFromSound(c, src, f, k, y + step, 0);
    } else if Throws(c, src, Rect(x, y, ww, wh)) {
      assert Visited(c, src.Length0, src.Length1, f, Hit(k, Rect(x, y, ww, wh)));
    } else {
      assert Reached(x + step, step);
      ThrowsFromSound(c, src, f, k, y, x + step);
    }
  }

  /** A visited window at or after the start position on which the cascade throws makes the search throw. */
  lemma {:induction false} ThrowsFromComplete(c: C.Classifier, src: array2<int>, f: real, k: nat, y: int, x: int, h: Hit)
    requires c.baseWidth >= 1 && c.baseHeight >= 1 && f > 1.0 && AtPosition(c, f, k, y, x)
    requires Visited(c, src.Length0, src.Length1, f, h) && Throws(c, src, h.rect) && NotBefore(h, k, y, x)
    ensures ThrowsFrom(c, src, f, k, y, x)
    decreases LevelBound(src.Length0, f) - k, src.Length1 - y, src.Length0 - x
  {
    assert ThrowsFrom(c, src, f, k, y, x) == ThrowsAt(c, src, f, k, y, x);
    var ww := WindowSize(c.baseWidth, f, k);
    var wh := WindowSize(c.baseHeight, f, k);
    var step := Step(ww);
    WindowSizeGrows(c.baseWidth, f, k, h.level);
    WindowSizeGrows(c.baseHeight, f, k, h.level);
    if !(ww <= src.Length0 && wh <= src.Length1) {
      assert false;
    } else if y > src.Length1 - wh - step {
      FitsBelowBound(c.baseWidth, f, k, src.Length0);
      assert h.level > k;
      ThrowsFromComplete(c, src, f, k + 1, 0, 0, h);
    } else if x > src.Length0 - ww - step {
      if h.level == k {
        ReachedApart(y, h.rect.y, step);
      }
      assert Reached(y + step, step);
      ThrowsFromComplete(c, src, f, k, y + step, 0, h);
    } else if h != Hit(k, Rect(x, y, ww, wh)) {
      if h.level == k && h.rect.y == y {
        ReachedApart(x, h.rect.x, step);
      }
      assert Reached(x + step, step);
      ThrowsFromComplete(c, src, f, k, y, x + step, h);
    }
  }

  /** The search from its start throws exactly when the cascade throws on some visited window. */
  lemma SearchThrowsIffSomeWindowThrows(c: C.Classifier, src: array2<int>, f: real)
    requires c.baseWidth >= 1 && c.baseHeight >= 1 && f > 1.0
    ensures ThrowsFrom(c, src, f, 0, 0, 0) <==>
      exists h :: Visited(c, src.Length0, src.Length1, f, h) && Throws(c, src, h.rect)
  {
    if ThrowsFrom(c, src, f, 0, 0, 0) {
      ThrowsFromSound(c, src, f, 0, 0, 0);
    }
    if exists h :: Visited(c, src.Length0, src.Length1, f, h) && Throws(c, src, h.rect) {
      var h :| Visited(c, src.Length0, src.Length1, f, h) && Throws(c, src, h.rect);
      ThrowsFromComplete(c, src, f, 0, 0, 0, h);
    }
  }

  /** A visited window lies inside the image, with at least a step to spare on the right and below. */
  lemma VisitedIsInside(c: C.Classifier, imageWidth: int, imageHeight: int, f: real, h: Hit)
    requires c.baseWidth >= 1 && c.baseHeight >= 1 && f > 1.0 && Visited(c, imageWidth, imageHeight, f, h)
    ensures Inside(h.rect, imageWidth, imageHeight)
    ensures h.rect.x + h.rect.width + 2 <= imageWidth && h.rect.y + h.rect.height + 2 <= imageHeight
  {
    WindowSizeGrows(c.baseWidth, f, h.level, h.level);
    WindowSizeGrows(c.baseHeight, f, h.level, h.level);
  }

  /** Once a pass's windows no longer fit, no later pass is visited either. */
  lemma NoHitsAfterOversizedPass(c: C.Classifier, imageWidth: int, imageHeight: int, f: real, k: nat, h: Hit)
    requires c.baseWidth >= 1 && c.baseHeight >= 1 && f > 1.0
    requires !Fits(c, imageWidth, imageHeight, f, k) && h.level >= k
    ensures !Visited(c, imageWidth, imageHeight, f, h)
  {
    WindowSizeGrows(c.baseWidth, f, k, h.level);
    WindowSizeGrows(c.baseHeight, f, k, h.level);
  }

  // ----- Every lookup of a visited window stays inside the table -----

  /**
   * One axis of a scaled rectangle: an offset `v` and a length `len` inside
   * a base of `base` pixels, scaled to a window of `size >= base` pixels
   * placed at `o`, start inside the image and end at most one pixel past the
   * window (two roundings of at most half a pixel each).
   */
  lemma AxisInside(o: int, v: int, len: int, base: int, size: int, limit: int)
    requires 0 <= v && 1 <= len && v + len <= base && 1 <= base <= size
    requires 0 <= o && o + size + 1 <= limit
    ensures var s := size as real / base as real;
      0 <= o + C.RoundScaled(v, s) && 1 <= C.RoundScaled(len, s) &&
      o + C.RoundScaled(v, s) + C.RoundScaled(len, s) <= limit
  {
    ScaleWithin(v, len, base, size);
    RoundedAxis(o, v, len, size as real / base as real, size, limit);
  }

  /** The rounded offset and length of an axis whose scaled values lie inside `size`. */
  lemma RoundedAxis(o: int, v: int, len: int, s: real, size: int, limit: int)
    requires 0.0 <= v as real * s && 1.0 <= len as real * s && v as real * s + len as real * s <= size as real
    requires 0 <= o && o + size + 1 <= limit
    ensures 0 <= o + C.RoundScaled(v, s) && 1 <= C.RoundScaled(len, s)
    ensures o + C.RoundScaled(v, s) + C.RoundScaled(len, s) <= limit
  {
    RoundedWithin(v as real * s, len as real * s, size as real);
  }

  /** Two roundings add at most one to a sum, and keep a value of at least 1 at least 1. */
  lemma RoundedWithin(a: real, b: real, bound: real)
    requires 0.0 <= a && 1.0 <= b && a + b <= bound
    ensures 0 <= RoundHalfEven(a) && 1 <= RoundHalfEven(b)
    ensures (RoundHalfEven(a) + RoundHalfEven(b)) as real <= bound + 1.0
  {
  }

  /** `v` and `len` inside the base, scaled by `size / base >= 1`, stay inside `size` and keep `len` at least 1. */
  lemma ScaleWithin(v: int, len: int, base: int, size: int)
    requires 0 <= v && 1 <= len && v + len <= base && 1 <= base <= size
    ensures var s := size as real / base as real;
      0.0 <= v as real * s && 1.0 <= len as real * s && v as real * s + len as real * s <= size as real
  {
    var s := size as real / base as real;
    assert s * base as real == size as real;
    assert s >= 1.0;
    assert len as real * s >= len as real;
    assert (v + len) as real * s <= base as real * s;
    assert v as real * s + len as real * s == (v + len) as real * s;
  }

  lemma ScaledRectInside(rect: C.HaarRectangle, p: C.Placement, imageWidth: int, imageHeight: int)
    requires C.ValidPlacement(p) && RectInBase(rect, p.baseWidth, p.baseHeight)
    requires p.baseWidth <= p.window.width && p.baseHeight <= p.window.height
    requires 0 <= p.window.x && p.window.x + p.window.width + 1 <= imageWidth
    requires 0 <= p.window.y && p.window.y + p.window.height + 1 <= imageHeight
    ensures Inside(C.ScaledRect(rect, p), imageWidth, imageHeight)
  {
    AxisInside(p.window.x, rect.x, rect.width, p.baseWidth, p.window.width, imageWidth);
    AxisInside(p.window.y, rect.y, rect.height, p.baseHeight, p.window.height, imageHeight);
  }

  /** Every scaled rectangle of a well-formed cascade lies inside the image for a window with a pixel to spare. */
  lemma WindowScaledInside(c: C.Classifier, src: array2<int>, window: Rect)
    requires WellFormed(c)
    requires c.baseWidth <= window.width && c.baseHeight <= window.height
    requires 0 <= window.x && window.x + window.width + 1 <= src.Length0
    requires 0 <= window.y && window.y + window.height + 1 <= src.Length1
    ensures C.ScaledInside(c.stages, src, C.Placement(window, c.baseWidth, c.baseHeight))
  {
    var p := C.Placement(window, c.baseWidth, c.baseHeight);
    forall s, k | 0 <= s < |c.stages| && 0 <= k < |c.stages[s].weakClassifiers|
      ensures C.AllInside(C.Placed(c.stages[s].weakClassifiers[k].feature.rectangles, p), src.Length0, src.Length1)
    {
      var rects := c.stages[s].weakClassifiers[k].feature.rectangles;
      assert WeakWellFormed(c.stages[s].weakClassifiers[k], c.baseWidth, c.baseHeight);
      forall j | 0 <= j < |C.Placed(rects, p)|
        ensures Inside(C.Placed(rects, p)[j].rect, src.Length0, src.Length1)
      {
        C.PlacedAt(rects, p, j);
        ScaledRectInside(rects[j], p, src.Length0, src.Length1);
      }
    }
  }

  /**
   * On a visited window every rectangle sum the cascade reads from the
   * summed-area table is defined; the evaluation over the table throws
   * exactly when it throws over the image, and otherwise gives the same
   * answer.
   */
  lemma VisitedWindowOfTable(c: C.Classifier, integral: array2<int>, src: array2<int>, f: real, h: Hit)
    requires WellFormed(c) && f > 1.0 && IsIntegralOf(integral, src)
    requires Visited(c, src.Length0, src.Length1, f, h)
    ensures var p := C.Placement(h.rect, c.baseWidth, c.baseHeight);
      C.CascadeFeaturesDefined(c.stages, Table(integral), p) &&
      (C.CascadeDefined(c.stages, Table(integral), p) <==> !Throws(c, src, h.rect)) &&
      (C.CascadeDefined(c.stages, Table(integral), p) ==>
        C.Accepts(c.stages, Table(integral), p) == Accepted(c, src, h.rect))
  {
    WindowSizeGrows(c.baseWidth, f, h.level, h.level);
    WindowSizeGrows(c.baseHeight, f, h.level, h.level);
    WindowScaledInside(c, src, h.rect);
    C.AcceptsOfTable(c.stages, integral, src, C.Placement(h.rect, c.baseWidth, c.baseHeight));
  }

  /**
   * A well-formed cascade whose weak classifiers all have two leaves throws
   * on no visited window.
   */
  lemma TwoLeavesNeverThrow(c: C.Classifier, src: array2<int>, f: real, h: Hit)
    requires WellFormed(c) && f > 1.0 && Visited(c, src.Length0, src.Length1, f, h)
    requires forall s, k :: 0 <= s < |c.stages| && 0 <= k < |c.stages[s].weakClassifiers| ==>
      |c.stages[s].weakClassifiers[k].leafValues| >= 2
    ensures !Throws(c, src, h.rect)
  {
    WindowSizeGrows(c.baseWidth, f, h.level, h.level);
    WindowSizeGrows(c.baseHeight, f, h.level, h.level);
    WindowScaledInside(c, src, h.rect);
    var p := C.Placement(h.rect, c.baseWidth, c.baseHeight);
    forall s | 0 <= s < |c.stages|
      ensures C.FeaturesDefined(c.stages[s].weakClassifiers, Image(src), p)
    {
      forall k | 0 <= k < |c.stages[s].weakClassifiers|
        ensures C.FeatureDefined(c.stages[s].weakClassifiers[k].feature.rectangles, Image(src), p)
      {
        assert C.AllInside(C.Placed(c.stages[s].weakClassifiers[k].feature.rectangles, p), src.Length0, src.Length1);
      }
    }
    C.TwoLeavesCascadeDefined(c.stages, Image(src), p);
  }

  // ----- The loops' steps -----

    /** `ww`, `wh` and `step` are the window width, window height and step of pass `k`. */
  predicate PassSizes(c: C.Classifier, f: real, k: nat, ww: int, wh: int, step: int)
  {
    c.baseWidth >= 1 && c.baseHeight >= 1 && f > 1.0 &&
    ww == WindowSize(c.baseWidth, f, k) && wh == WindowSize(c.baseHeight, f, k) && step == Step(ww)
  }

  /**
   * One window of a row, evaluated on the integral image: its rectangle sums
   * are defined; the search throws from column `x` when the evaluation fails
   * there or the search throws from the next column; and when the
   * evaluation succeeds, the scan at column `x` is the window's hit, if the
   * cascade accepts it, followed by the scan at the next column.
   */
  lemma WindowStep(c: C.Classifier, integral: array2<int>, src: array2<int>, f: real, k: nat,
                   ww: int, wh: int, step: int, y: int, x: int)
    requires WellFormed(c) && IsIntegralOf(integral, src) && PassSizes(c, f, k, ww, wh, step)
    requires Reached(y, step) && Reached(x, step) && y <= src.Length1 - wh - step && x <= src.Length0 - ww - step
    ensures var p := C.Placement(Rect(x, y, ww, wh), c.baseWidth, c.baseHeight);
      C.CascadeFeaturesDefined(c.stages, Table(integral), p) &&
      (ThrowsFrom(c, src, f, k, y, x) <==>
        !C.CascadeDefined(c.stages, Table(integral), p) || ThrowsFrom(c, src, f, k, y, x + step))
    ensures var window := Rect(x, y, ww, wh);
      var p := C.Placement(window, c.baseWidth, c.baseHeight);
      C.CascadeDefined(c.stages, Table(integral), p) ==>
        ScanFrom(c, src, f, k, y, x) ==
          (if C.Accepts(c.stages, Table(integral), p) then [Hit(k, window)] else []) + ScanFrom(c, src, f, k, y, x + step)
    ensures Reached(x + step, step)
  {
    assert ScanFrom(c, src, f, k, y, x) == ScanAt(c, src, f, k, y, x);
    assert ThrowsFrom(c, src, f, k, y, x) == ThrowsAt(c, src, f, k, y, x);
    VisitedWindowOfTable(c, integral, src, f, Hit(k, Rect(x, y, ww, wh)));
  }

  /** The end of a row: the search goes on at the start of the next row. */
  lemma RowEnd(c: C.Classifier, src: array2<int>, f: real, k: nat, ww: int, wh: int, step: int, y: int, x: int)
    requires PassSizes(c, f, k, ww, wh, step)
    requires Reached(y, step) && y <= src.Length1 - wh - step && x > src.Length0 - ww - step
    ensures ScanFrom(c, src, f, k, y, x) == ScanFrom(c, src, f, k, y + step, 0) && Reached(y + step, step)
    ensures ThrowsFrom(c, src, f, k, y, x) == ThrowsFrom(c, src, f, k, y + step, 0)
  {
    assert ScanFrom(c, src, f, k, y, x) == ScanAt(c, src, f, k, y, x);
    assert ThrowsFrom(c, src, f, k, y, x) == ThrowsAt(c, src, f, k, y, x);
  }

  /** The end of a pass: the search goes on with the next window size. */
  lemma PassEnd(c: C.Classifier, src: array2<int>, f: real, k: nat, ww: int, wh: int, step: int, y: int)
    requires PassSizes(c, f, k, ww, wh, step)
    requires ww <= src.Length0 && wh <= src.Length1 && y > src.Length1 - wh - step
    ensures ScanFrom(c, src, f, k, y, 0) == ScanFrom(c, src, f, k + 1, 0, 0)
    ensures ThrowsFrom(c, src, f, k, y, 0) == ThrowsFrom(c, src, f, k + 1, 0, 0)
  {
    assert ScanFrom(c, src, f, k, y, 0) == ScanAt(c, src, f, k, y, 0);
    assert ThrowsFrom(c, src, f, k, y, 0) == ThrowsAt(c, src, f, k, y, 0);
  }

  /** `currentScale *= scaleFactor` and the truncated window sizes that follow it. */
  lemma NextScale(f: real, k: nat, scale: real, next: real, base: int, size: int)
    requires scale == Pow(f, k) && next == scale * f && size == Truncate(base as real * next)
    ensures next == Pow(f, k + 1) && size == WindowSize(base, f, k + 1)
  {
    assert next == Pow(f, k + 1);
    TruncateOfEqual(base, next, Pow(f, k + 1));
  }

  lemma TruncateOfEqual(base: int, a: real, b: real)
    requires a == b
    ensures Truncate(base as real * a) == Truncate(base as real * b)
  {
  }

  lemma RectsConcat(a: seq<Hit>, b: seq<Hit>)
    ensures Rects(a + b) == Rects(a) + Rects(b)
  {
    assert forall i :: 0 <= i < |a| ==> (a + b)[i] == a[i];
    assert forall i :: |a| <= i < |a| + |b| ==> (a + b)[i] == b[i - |a|];
  }

  /** One window of a row: the found rectangles grow by the window if it was accepted. */
  lemma Advance(total: seq<Rect>, found: seq<Rect>, found': seq<Rect>, here: seq<Hit>, rest: seq<Hit>, accepted: bool, h: Hit)
    requires total == found + Rects(here)
    requires here == (if accepted then [h] else []) + rest
    requires found' == if accepted then found + [h.rect] else found
    ensures total == found' + Rects(rest)
  {
    RectsConcat(if accepted then [h] else [], rest);
    if accepted {
      assert Rects([h]) == [h.rect];
      assert found + ([h.rect] + Rects(rest)) == found + [h.rect] + Rects(rest);
    } else {
      assert Rects([]) == [];
      assert [] + rest == rest;
    }
  }

  /** `total = a + mid` with `mid = b + rest`: `total = (a + b) + rest`. */
  lemma Regroup(total: seq<Rect>, a: seq<Rect>, mid: seq<Rect>, b: seq<Rect>, rest: seq<Rect>)
    requires total == a + mid && mid == b + rest
    ensures total == (a + b) + rest
  {
  }

  /** A pass that does not fit ends the search. */
  lemma ScanEnd(c: C.Classifier, src: array2<int>, f: real, k: nat)
    requires c.baseWidth >= 1 && c.baseHeight >= 1 && f > 1.0
    requires !Fits(c, src.Length0, src.Length1, f, k)
    ensures ScanFrom(c, src, f, k, 0, 0) == []
    ensures !ThrowsFrom(c, src, f, k, 0, 0)
  {
    assert ScanFrom(c, src, f, k, 0, 0) == ScanAt(c, src, f, k, 0, 0);
    assert ThrowsFrom(c, src, f, k, 0, 0) == ThrowsAt(c, src, f, k, 0, 0);
  }

  // ----- The detector's methods -----

  /** `ComputeIntegralImage`: the standard summed-area table of the grey levels. */
  method ComputeIntegralImage(gray: array2<int>) returns (integral: array2<int>)
    ensures fresh(integral)
    ensures IsIntegralOf(integral, gray)
  {
    integral := ComputeStandardIntegralImage(gray);
  }

  /**
   * `PassesCascade`: stage by stage, the votes of every weak classifier of
   * the stage summed (the same inner loop as `EvaluateWindow` of the
   * classifier), rejecting at the first stage whose sum is below its
   * threshold; a vote's error ends the evaluation.
   */
  method PassesCascade(stages: seq<C.HaarStage>, integral: array2<int>, window: Rect, baseWidth: int, baseHeight: int)
    returns (r: Result<bool, C.EvalError>)
    requires C.CascadeFeaturesDefined(stages, Table(integral), C.Placement(window, baseWidth, baseHeight))
    ensures r.Success? <==> C.CascadeDefined(stages, Table(integral), C.Placement(window, baseWidth, baseHeight))
    ensures r.Success? ==> r.value == C.Accepts(stages, Table(integral), C.Placement(window, baseWidth, baseHeight))
  {
    var p := C.Placement(window, baseWidth, baseHeight);
    var s := 0;
    while s < |stages|
      invariant 0 <= s <= |stages|
      invariant C.CascadeDefined(stages, Table(integral), p) == C.CascadeDefined(stages[s..], Table(integral), p)
      invariant C.CascadeDefined(stages[s..], Table(integral), p) ==>
        C.Accepts(stages, Table(integral), p) == C.Accepts(stages[s..], Table(integral), p)
    {
      var stage := stages[s];
      assert stages[s..][0] == stage && stages[s..][1..] == stages[s + 1..];
      var stageSum := C.EvaluateStage(stage, integral, p);
      if stageSum.Failure? {
        return Failure(stageSum.error);
      }
      if stageSum.value < stage.stageThreshold {
        return Success(false);
      }
      s := s + 1;
    }
    return Success(true);
  }

  /**
   * One row of one pass of `DetectObjects`: the windows at `x = 0, step, …`
   * while `x <= W - ww - step`, the accepted ones in order, or the error of
   * the first window on which the cascade throws.
   */
  method ScanRow(c: C.Classifier, integral: array2<int>, gray: array2<int>, ghost f: real, ghost k: nat,
                 windowWidth: int, windowHeight: int, step: int, y: int) returns (r: Result<seq<Rect>, C.EvalError>)
    requires WellFormed(c) && IsIntegralOf(integral, gray) && PassSizes(c, f, k, windowWidth, windowHeight, step)
    requires Reached(y, step) && y <= gray.Length1 - windowHeight - step
    ensures ThrowsFrom(c, gray, f, k, y, 0) <==> r.Failure? || ThrowsFrom(c, gray, f, k, y + step, 0)
    ensures r.Success? ==> Rects(ScanFrom(c, gray, f, k, y, 0)) == r.value + Rects(ScanFrom(c, gray, f, k, y + step, 0))
  {
    var found := [];
    var x := 0;
    while x <= gray.Length0 - windowWidth - step
      invariant Reached(x, step)
      invariant ThrowsFrom(c, gray, f, k, y, 0) == ThrowsFrom(c, gray, f, k, y, x)
      invariant Rects(ScanFrom(c, gray, f, k, y, 0)) == found + Rects(ScanFrom(c, gray, f, k, y, x))
      decreases gray.Length0 - windowWidth - x
    {
      var window := Rect(x, y, windowWidth, windowHeight);
      WindowStep(c, integral, gray, f, k, windowWidth, windowHeight, step, y, x);
      var accepted := PassesCascade(c.stages, integral, window, c.baseWidth, c.baseHeight);
      if accepted.Failure? {
        return Failure(accepted.error);
      }
      ghost var before := found;
      if accepted.value {
        found := found + [window];
      }
      Advance(Rects(ScanFrom(c, gray, f, k, y, 0)), before, found,
              ScanFrom(c, gray, f, k, y, x), ScanFrom(c, gray, f, k, y, x + step), accepted.value, Hit(k, window));
      x := x + step;
    }
    RowEnd(c, gray, f, k, windowWidth, windowHeight, step, y, x);
    return Success(found);
  }

  /**
   * One pass of `DetectObjects`: the rows at `y = 0, step, …` while
   * `y <= H - wh - step`, or the error of the first row that throws.
   */
  method ScanLevel(c: C.Classifier, integral: array2<int>, gray: array2<int>, ghost f: real, ghost k: nat,
                   windowWidth: int, windowHeight: int) returns (r: Result<seq<Rect>, C.EvalError>)
    requires WellFormed(c) && f > 1.0 && IsIntegralOf(integral, gray) && Fits(c, gray.Length0, gray.Length1, f, k)
    requires windowWidth == WindowSize(c.baseWidth, f, k) && windowHeight == WindowSize(c.baseHeight, f, k)
    ensures ThrowsFrom(c, gray, f, k, 0, 0) <==> r.Failure? || ThrowsFrom(c, gray, f, k + 1, 0, 0)
    ensures r.Success? ==> Rects(ScanFrom(c, gray, f, k, 0, 0)) == r.value + Rects(ScanFrom(c, gray, f, k + 1, 0, 0))
  {
    var step := Max(2, windowWidth / 10);
    assert PassSizes(c, f, k, windowWidth, windowHeight, step);
    var found := [];
    var y := 0;
    while y <= gray.Length1 - windowHeight - step
      invariant Reached(y, step)
      invariant ThrowsFrom(c, gray, f, k, 0, 0) == ThrowsFrom(c, gray, f, k, y, 0)
      invariant Rects(ScanFrom(c, gray, f, k, 0, 0)) == found + Rects(ScanFrom(c, gray, f, k, y, 0))
      decreases gray.Length1 - windowHeight - y
    {
      var row := ScanRow(c, integral, gray, f, k, windowWidth, windowHeight, step, y);
      if row.Failure? {
        return Failure(row.error);
      }
      Regroup(Rects(ScanFrom(c, gray, f, k, 0, 0)), found, Rects(ScanFrom(c, gray, f, k, y, 0)), row.value,
              Rects(ScanFrom(c, gray, f, k, y + step, 0)));
      found := found + row.value;
      y := y + step;
    }
    PassEnd(c, gray, f, k, windowWidth, windowHeight, step, y);
    return Success(found);
  }

  /**
   * `DetectObjects` over the grey levels of the image: the rectangles of the
   * scan from its start, in order; or, when the cascade throws on some
   * visited window, that error and no detections.
   */
  method DetectObjects(c: C.Classifier, gray: array2<int>, scaleFactor: real) returns (r: Result<seq<Rect>, C.EvalError>)
    requires WellFormed(c) && scaleFactor > 1.0
    ensures r.Failure? <==> ThrowsFrom(c, gray, scaleFactor, 0, 0, 0)
    ensures r.Success? ==> r.value == Rects(ScanFrom(c, gray, scaleFactor, 0, 0, 0))
  {
    var detections := [];
    var integral := ComputeIntegralImage(gray);
    var width := gray.Length0;
    var height := gray.Length1;
    var baseWidth := c.baseWidth;
    var baseHeight := c.baseHeight;
    var currentScale := 1.0;
    var windowWidth := baseWidth;
    var windowHeight := baseHeight;
    ghost var f := scaleFactor;
    ghost var k: nat := 0;
    WindowSizeAtStart(baseWidth, f);
    WindowSizeAtStart(baseHeight, f);
    while windowWidth <= width && windowHeight <= height
      invariant IsIntegralOf(integral, gray)
      invariant currentScale == Pow(f, k)
      invariant windowWidth == WindowSize(baseWidth, f, k) && windowHeight == WindowSize(baseHeight, f, k)
      invariant ThrowsFrom(c, gray, f, 0, 0, 0) == ThrowsFrom(c, gray, f, k, 0, 0)
      invariant Rects(ScanFrom(c, gray, f, 0, 0, 0)) == detections + Rects(ScanFrom(c, gray, f, k, 0, 0))
      decreases LevelBound(width, f) - k
    {
      FitsBelowBound(baseWidth, f, k, width);
      var found := ScanLevel(c, integral, gray, f, k, windowWidth, windowHeight);
      if found.Failure? {
        return Failure(found.error);
      }
      Regroup(Rects(ScanFrom(c, gray, f, 0, 0, 0)), detections, Rects(ScanFrom(c, gray, f, k, 0, 0)), found.value,
              Rects(ScanFrom(c, gray, f, k + 1, 0, 0)));
      detections := detections + found.value;
      ghost var scale := currentScale;
      currentScale := currentScale * scaleFactor;
      windowWidth := Truncate(baseWidth as real * currentScale);
      windowHeight := Truncate(baseHeight as real * currentScale);
      NextScale(f, k, scale, currentScale, baseWidth, windowWidth);
      NextScale(f, k, scale, currentScale, baseHeight, windowHeight);
      k := k + 1;
    }
    ScanEnd(c, gray, f, k);
    return Success(detections);
  }
}
