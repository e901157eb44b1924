/**
 * The skin-colour face detector of `FaceDetector.cs` (class
 * `FaceRectangleDetector`).
 *
 * A mask is a `bool` grid indexed `[x, y]`: `Length0` is the image width and
 * `Length1` its height.  The methods work on arrays as the source does; what
 * they compute is stated over the value `Cells(a)` of an array, a `Grid`
 * (a sequence of columns), so that the steps of the pipeline can be composed:
 * closing (dilations, then erosions), hole filling, the 8-connected
 * components of the filled mask, and one box per component that passes the
 * size and aspect filters.
 */
module FaceDetector {
  import opened CsNumerics

  // ----- Masks as values -----

  /** A mask as a value: `g[x][y]` is the cell at column `x`, row `y`. */
  type Grid = seq<seq<bool>>

  /** Every column has `height` cells. */
  predicate Rectangular(g: Grid, height: int)
  {
    forall x :: 0 <= x < |g| ==> |g[x]| == height
  }

  /** The cell at `(x, y)`; every cell outside the grid reads as false. */
  predicate Cell(g: Grid, x: int, y: int)
  {
    0 <= x < |g| && 0 <= y < |g[x]| && g[x][y]
  }

  /** The contents of an array mask. */
  ghost function Cells(a: array2<bool>): (g: Grid)
    reads a
    ensures |g| == a.Length0 && Rectangular(g, a.Length1)
    ensures forall x, y :: 0 <= x < a.Length0 && 0 <= y < a.Length1 ==> g[x][y] == a[x, y]
  {
    seq(a.Length0, x requires 0 <= x < a.Length0 reads a =>
      seq(a.Length1, y requires 0 <= y < a.Length1 reads a => a[x, y]))
  }

  /** A grid of `width` columns of `height` cells each, cell `(x, y)` given by `f`. */
  ghost function Tabulate(width: nat, height: nat, f: (int, int) -> bool): (g: Grid)
    ensures |g| == width && Rectangular(g, height)
    ensures forall x, y :: 0 <= x < width && 0 <= y < height ==> g[x][y] == f(x, y)
  {
    seq(width, x => seq(height, y => f(x, y)))
  }

  /** Two grids with the same shape and the same cells are equal. */
  lemma GridsEqual(g: Grid, h: Grid, height: int)
    requires |g| == |h| && Rectangular(g, height) && Rectangular(h, height)
    requires forall x, y :: 0 <= x < |g| && 0 <= y < height ==> g[x][y] == h[x][y]
    ensures g == h
  {
    forall x | 0 <= x < |g|
      ensures g[x] == h[x]
    {
      assert forall y :: 0 <= y < height ==> g[x][y] == h[x][y];
    }
  }

  /** The offset of a square kernel: `kernelSize / 2`, truncated as C# does. */
  function Offset(kernelSize: int): int
  {
    CsDiv(kernelSize, 2)
  }

  /** `(i, j)` lies within Chebyshev distance `off` of `(a, b)`. */
  predicate Near(off: int, i: int, j: int, a: int, b: int)
  {
    a - off <= i <= a + off && b - off <= j <= b + off
  }

  // ----- Dilation -----

  /** Some set cell of `g` lies within Chebyshev distance `off` of `(x, y)`. */
  ghost predicate DilatedAt(g: Grid, off: int, x: int, y: int)
  {
    exists i, j :: Near(off, i, j, x, y) && Cell(g, i, j)
  }

  /** The dilation of `g` by the square of radius `off`. */
  ghost function Dilate(g: Grid, height: nat, off: int): (d: Grid)
    ensures |d| == |g| && Rectangular(d, height)
  {
    Tabulate(|g|, height, (x, y) => DilatedAt(g, off, x, y))
  }

  /** Among the cells `(0, j) … (i - 1, j)`, some set cell is near `(a, b)`. */
  ghost predicate HitInRow(g: Grid, off: int, a: int, b: int, j: int, i: int)
    decreases i
  {
    i > 0 && (HitInRow(g, off, a, b, j, i - 1) || (Cell(g, i - 1, j) && Near(off, i - 1, j, a, b)))
  }

  /** Among the cells of rows `0 … j - 1`, some set cell is near `(a, b)`. */
  ghost predicate HitInRows(g: Grid, off: int, a: int, b: int, j: int)
    decreases j
  {
    j > 0 && (HitInRows(g, off, a, b, j - 1) || HitInRow(g, off, a, b, j - 1, |g|))
  }

  lemma {:induction false} HitInRowWitness(g: Grid, off: int, a: int, b: int, j: int, i: int) returns (w: int)
    requires HitInRow(g, off, a, b, j, i)
    ensures 0 <= w < i && Cell(g, w, j) && Near(off, w, j, a, b)
    decreases i
  {
    if HitInRow(g, off, a, b, j, i - 1) {
      w := HitInRowWitness(g, off, a, b, j, i - 1);
    } else {
      w := i - 1;
    }
  }

  lemma {:induction false} HitInRowOf(g: Grid, off: int, a: int, b: int, j: int, i: int, w: int)
    requires 0 <= w < i && Cell(g, w, j) && Near(off, w, j, a, b)
    ensures HitInRow(g, off, a, b, j, i)
    decreases i
  {
    if w < i - 1 {
      HitInRowOf(g, off, a, b, j, i - 1, w);
    }
  }

  lemma {:induction false} HitInRowsIff(g: Grid, off: int, a: int, b: int, j: int)
    requires j >= 0
    ensures HitInRows(g, off, a, b, j) <==> exists u, w :: 0 <= u < j && Near(off, w, u, a, b) && Cell(g, w, u)
    decreases j
  {
    if j > 0 {
      HitInRowsIff(g, off, a, b, j - 1);
      if HitInRow(g, off, a, b, j - 1, |g|) {
        var w := HitInRowWitness(g, off, a, b, j - 1, |g|);
        assert Near(off, w, j - 1, a, b) && Cell(g, w, j - 1);
      }
      var u := j - 1;
      if exists w :: Near(off, w, u, a, b) && Cell(g, w, u) {
        var w :| Near(off, w, u, a, b) && Cell(g, w, u);
        HitInRowOf(g, off, a, b, u, |g|, w);
      }
    }
  }

  /** The scan order of the dilation loop visits every cell that can reach `(a, b)`. */
  lemma HitInAllRows(g: Grid, height: nat, off: int, a: int, b: int)
    requires Rectangular(g, height)
    ensures HitInRows(g, off, a, b, height) <==> DilatedAt(g, off, a, b)
  {
    HitInRowsIff(g, off, a, b, height);
  }

  /** The inner two loops of `DilateMask` for a set cell `(x, y)`: every in-bounds cell near it becomes true. */
  method Stamp(result: array2<bool>, x: int, y: int, offset: int)
    modifies result
    ensures forall a, b :: 0 <= a < result.Length0 && 0 <= b < result.Length1 ==>
      result[a, b] == (old(result[a, b]) || Near(offset, a, b, x, y))
  {
    var width, height := result.Length0, result.Length1;
    var dy := -offset;
    while dy <= offset
      invariant -offset <= dy && (offset < 0 ==> dy == -offset) && (offset >= 0 ==> dy <= offset + 1)
      invariant forall a, b :: 0 <= a < width && 0 <= b < height ==>
        result[a, b] == (old(result[a, b]) || (x - offset <= a <= x + offset && y - offset <= b < y + dy))
    {
      var dx := -offset;
      while dx <= offset
        invariant -offset <= dx <= offset + 1
        invariant forall a, b :: 0 <= a < width && 0 <= b < height ==>
          result[a, b] == (old(result[a, b]) || (x - offset <= a <= x + offset && y - offset <= b < y + dy)
                           || (x - offset <= a < x + dx && b == y + dy))
      {
        var nx := x + dx;
        var ny := y + dy;
        if nx >= 0 && nx < width && ny >= 0 && ny < height {
          result[nx, ny] := true;
        }
        dx := dx + 1;
      }
      dy := dy + 1;
    }
  }

  /**
   * `DilateMask`: a cell of the result is set iff some set cell of the mask
   * lies within `kernelSize / 2` of it in both directions.
   */
  method DilateMask(mask: array2<bool>, kernelSize: int) returns (result: array2<bool>)
    ensures fresh(result) && result.Length0 == mask.Length0 && result.Length1 == mask.Length1
    ensures Cells(result) == Dilate(Cells(mask), mask.Length1, Offset(kernelSize))
  {
    var width, height := mask.Length0, mask.Length1;
    result := new bool[width, height]((_, _) => false);
    var offset := Offset(kernelSize);
    ghost var g := Cells(mask);
    var y := 0;
    while y < height
      invariant 0 <= y <= height
      invariant forall a, b :: 0 <= a < width && 0 <= b < height ==> result[a, b] == HitInRows(g, offset, a, b, y)
    {
      var x := 0;
      while x < width
        invariant 0 <= x <= width
        invariant forall a, b :: 0 <= a < width && 0 <= b < height ==>
          result[a, b] == (HitInRows(g, offset, a, b, y) || HitInRow(g, offset, a, b, y, x))
      {
        if mask[x, y] {
          Stamp(result, x, y, offset);
        }
        assert Cell(g, x, y) == mask[x, y];
        x := x + 1;
      }
      y := y + 1;
    }
    forall a, b | 0 <= a < width && 0 <= b < height
      ensures result[a, b] == DilatedAt(g, offset, a, b)
    {
      HitInAllRows(g, height, offset, a, b);
    }
    GridsEqual(Cells(result), Dilate(g, height, offset), height);
  }

  // ----- Erosion -----

  /** Every cell within Chebyshev distance `off` of `(x, y)` is inside `g` and set. */
  ghost predicate ErodedAt(g: Grid, off: int, x: int, y: int)
  {
    forall i, j :: Near(off, i, j, x, y) ==> Cell(g, i, j)
  }

  /** The erosion of `g` by the square of radius `off`, cells outside the grid counting as unset. */
  ghost function Erode(g: Grid, height: nat, off: int): (e: Grid)
    ensures |e| == |g| && Rectangular(e, height)
  {
    Tabulate(|g|, height, (x, y) => ErodedAt(g, off, x, y))
  }

  /** The loops of `ErodeMask` for one cell: whether its whole square is inside the mask and set. */
  method KeepCell(mask: array2<bool>, x: int, y: int, offset: int) returns (keep: bool)
    ensures keep == ErodedAt(Cells(mask), offset, x, y)
  {
    ghost var g := Cells(mask);
    var width, height := mask.Length0, mask.Length1;
    keep := true;
    var dy := -offset;
    while dy <= offset && keep
      invariant -offset <= dy && (offset < 0 ==> dy == -offset)
      invariant keep ==> forall i, j :: x - offset <= i <= x + offset && y - offset <= j < y + dy ==> Cell(g, i, j)
      invariant !keep ==> !ErodedAt(g, offset, x, y)
    {
      var ny := y + dy;
      var dx := -offset;
      while dx <= offset
        invariant -offset <= dx <= offset + 1
        invariant keep
        invariant forall i, j :: x - offset <= i <= x + offset && y - offset <= j < ny ==> Cell(g, i, j)
        invariant forall i :: x - offset <= i < x + dx ==> Cell(g, i, ny)
      {
        var nx := x + dx;
        if nx < 0 || nx >= width || ny < 0 || ny >= height || !mask[nx, ny] {
          assert !Cell(g, nx, ny) && Near(offset, nx, ny, x, y);
          keep := false;
          break;
        }
        dx := dx + 1;
      }
      dy := dy + 1;
    }
  }

  /**
   * `ErodeMask`: a cell of the result is set iff every cell within
   * `kernelSize / 2` of it is inside the mask and set.
   */
  method ErodeMask(mask: array2<bool>, kernelSize: int) returns (result: array2<bool>)
    ensures fresh(result) && result.Length0 == mask.Length0 && result.Length1 == mask.Length1
    ensures Cells(result) == Erode(Cells(mask), mask.Length1, Offset(kernelSize))
  {
    var width, height := mask.Length0, mask.Length1;
    result := new bool[width, height]((_, _) => false);
    var offset := Offset(kernelSize);
    ghost var g := Cells(mask);
    var y := 0;
    while y < height
      invariant 0 <= y <= height
      invariant forall a, b :: 0 <= a < width && 0 <= b < y ==> result[a, b] == ErodedAt(g, offset, a, b)
    {
      var x := 0;
      while x < width
        invariant 0 <= x <= width
        invariant forall a, b :: 0 <= a < width && 0 <= b < y ==> result[a, b] == ErodedAt(g, offset, a, b)
        invariant forall a :: 0 <= a < x ==> result[a, y] == ErodedAt(g, offset, a, y)
      {
        var keep := KeepCell(mask, x, y, offset);
        result[x, y] := keep;
        x := x + 1;
      }
      y := y + 1;
    }
    GridsEqual(Cells(result), Erode(g, height, offset), height);
  }

  // ----- Closing -----

  /** `n` dilations in a row (none when `n <= 0`). */
  ghost function DilateTimes(g: Grid, height: nat, off: int, n: int): (d: Grid)
    requires Rectangular(g, height)
    ensures |d| == |g| && Rectangular(d, height)
    decreases n
  {
    if n <= 0 then g else Dilate(DilateTimes(g, height, off, n - 1), height, off)
  }

  /** `n` erosions in a row (none when `n <= 0`). */
  ghost function ErodeTimes(g: Grid, height: nat, off: int, n: int): (e: Grid)
    requires Rectangular(g, height)
    ensures |e| == |g| && Rectangular(e, height)
    decreases n
  {
    if n <= 0 then g else Erode(ErodeTimes(g, height, off, n - 1), height, off)
  }

  /** The closing of `MorphologicalClosing`: `n` dilations followed by `n` erosions. */
  ghost function Close(g: Grid, height: nat, off: int, n: int): (c: Grid)
    requires Rectangular(g, height)
    ensures |c| == |g| && Rectangular(c, height)
  {
    ErodeTimes(DilateTimes(g, height, off, n), height, off, n)
  }

  /**
   * `MorphologicalClosing`: `iterations` dilations, then `iterations`
   * erosions, all with the same kernel.  With no iteration the result is the
   * mask itself, not a copy.
   */
  method MorphologicalClosing(mask: array2<bool>, iterations: int, kernelSize: int) returns (result: array2<bool>)
    ensures result.Length0 == mask.Length0 && result.Length1 == mask.Length1
    ensures iterations <= 0 ==> result == mask
    ensures Cells(result) == Close(Cells(mask), mask.Length1, Offset(kernelSize), iterations)
  {
    ghost var g := Cells(mask);
    ghost var height := mask.Length1;
    ghost var off := Offset(kernelSize);
    result := mask;
    var i := 0;
    while i < iterations
      invariant 0 <= i && (iterations >= 0 ==> i <= iterations) && (iterations <= 0 ==> i == 0)
      invariant result.Length0 == mask.Length0 && result.Length1 == height
      invariant i == 0 ==> result == mask
      invariant Cells(result) == DilateTimes(g, height, off, i)
    {
      result := DilateMask(result, kernelSize);
      i := i + 1;
    }
    ghost var dilated := Cells(result);
    assert iterations >= 0 ==> i == iterations;
    assert DilateTimes(g, height, off, iterations) == DilateTimes(g, height, off, i);
    i := 0;
    while i < iterations
      invariant 0 <= i && (iterations >= 0 ==> i <= iterations) && (iterations <= 0 ==> i == 0)
      invariant result.Length0 == mask.Length0 && result.Length1 == height
      invariant iterations <= 0 ==> result == mask
      invariant Cells(result) == ErodeTimes(dilated, height, off, i)
    {
      result := ErodeMask(result, kernelSize);
      i := i + 1;
    }
  }

  // ----- What dilation, erosion and closing keep -----

  /** Dilation with a kernel of size 0 or more keeps every set cell: the mask is a subset of the result. */
  lemma DilationExtends(g: Grid, height: nat, kernelSize: int, x: int, y: int)
    requires Rectangular(g, height) && kernelSize >= 0
    requires 0 <= x < |g| && 0 <= y < height && g[x][y]
    ensures Dilate(g, height, Offset(kernelSize))[x][y]
  {
    assert Near(Offset(kernelSize), x, y, x, y) && Cell(g, x, y);
  }

  /** Erosion with a kernel of size 0 or more only clears cells: the result is a subset of the mask. */
  lemma ErosionShrinks(g: Grid, height: nat, kernelSize: int, x: int, y: int)
    requires Rectangular(g, height) && kernelSize >= 0
    requires 0 <= x < |g| && 0 <= y < height && Erode(g, height, Offset(kernelSize))[x][y]
    ensures g[x][y]
  {
    assert Near(Offset(kernelSize), x, y, x, y);
  }

  /** Erosion clears every cell closer than `kernelSize / 2` to the border of the image. */
  lemma ErosionClearsBorder(g: Grid, height: nat, kernelSize: int, x: int, y: int)
    requires Rectangular(g, height)
    requires 0 <= x < |g| && 0 <= y < height
    requires x < Offset(kernelSize) || y < Offset(kernelSize) ||
             x >= |g| - Offset(kernelSize) || y >= height - Offset(kernelSize)
    ensures !Erode(g, height, Offset(kernelSize))[x][y]
  {
    var off := Offset(kernelSize);
    if x < off {
      assert Near(off, x - off, y, x, y) && !Cell(g, x - off, y);
    } else if y < off {
      assert Near(off, x, y - off, x, y) && !Cell(g, x, y - off);
    } else if x >= |g| - off {
      assert Near(off, x + off, y, x, y) && !Cell(g, x + off, y);
    } else {
      assert Near(off, x, y + off, x, y) && !Cell(g, x, y + off);
    }
  }

  /**
   * One closing step keeps every set cell whose square lies inside the
   * image: each cell of that square is near the set cell, so it is set after
   * the dilation, and the erosion keeps the centre.
   */
  lemma ClosingKeepsInterior(g: Grid, height: nat, kernelSize: int, x: int, y: int)
    requires Rectangular(g, height) && kernelSize >= 0
    requires 0 <= x < |g| && 0 <= y < height && g[x][y]
    requires Offset(kernelSize) <= x < |g| - Offset(kernelSize) && Offset(kernelSize) <= y < height - Offset(kernelSize)
    ensures Close(g, height, Offset(kernelSize), 1)[x][y]
  {
    var off := Offset(kernelSize);
    var d := Dilate(g, height, off);
    assert DilateTimes(g, height, off, 1) == d;
    forall i, j | Near(off, i, j, x, y)
      ensures Cell(d, i, j)
    {
      assert Near(off, x, y, i, j) && Cell(g, x, y);
      assert d[i][j] == DilatedAt(g, off, i, j);
    }
    assert ErodedAt(d, off, x, y);
    assert ErodeTimes(d, height, off, 1) == Erode(d, height, off);
  }

  // ----- 8-connectivity -----

  /** A pixel position, the source's `(int x, int y)` tuple. */
  datatype Point = Point(x: int, y: int)

  /** `p` is a cell of `g` that holds `v`. */
  predicate Open(g: Grid, v: bool, p: Point)
  {
    0 <= p.x < |g| && 0 <= p.y < |g[p.x]| && g[p.x][p.y] == v
  }

  /** `q` is one of the nine cells `p + (dx, dy)`, `dx, dy` in `{-1, 0, 1}`, that a search looks at from `p`. */
  predicate Adjacent(p: Point, q: Point)
  {
    -1 <= q.x - p.x <= 1 && -1 <= q.y - p.y <= 1
  }

  /** A walk through neighbouring cells that all hold `v`. */
  ghost predicate IsPath(g: Grid, v: bool, path: seq<Point>)
  {
    (forall i :: 0 <= i < |path| ==> Open(g, v, path[i])) &&
    (forall i :: 0 < i < |path| ==> Adjacent(path[i - 1], path[i]))
  }

  /** `p` and `q` are joined by a walk of `v` cells (8-connectivity). */
  ghost predicate Connected(g: Grid, v: bool, p: Point, q: Point)
  {
    exists path :: IsPath(g, v, path) && |path| > 0 && path[0] == p && path[|path| - 1] == q
  }

  /** The 8-connected region of `v` cells that holds `p`. */
  ghost function Component(g: Grid, v: bool, p: Point): set<Point>
  {
    set x, y | 0 <= x < |g| && 0 <= y < |g[x]| && Connected(g, v, p, Point(x, y)) :: Point(x, y)
  }

  lemma ConnectedEndsOpen(g: Grid, v: bool, p: Point, q: Point)
    requires Connected(g, v, p, q)
    ensures Open(g, v, p) && Open(g, v, q)
  {
    var path :| IsPath(g, v, path) && |path| > 0 && path[0] == p && path[|path| - 1] == q;
    assert Open(g, v, path[0]) && Open(g, v, path[|path| - 1]);
  }

  lemma ConnectedToItself(g: Grid, v: bool, p: Point)
    requires Open(g, v, p)
    ensures Connected(g, v, p, p)
  {
    assert IsPath(g, v, [p]);
  }

  lemma ConnectedStep(g: Grid, v: bool, p: Point, q: Point, r: Point)
    requires Connected(g, v, p, q) && Adjacent(q, r) && Open(g, v, r)
    ensures Connected(g, v, p, r)
  {
    var path :| IsPath(g, v, path) && |path| > 0 && path[0] == p && path[|path| - 1] == q;
    var longer := path + [r];
    forall i | 0 < i < |longer|
      ensures Adjacent(longer[i - 1], longer[i])
    {
      if i < |path| {
        assert longer[i - 1] == path[i - 1] && longer[i] == path[i];
      }
    }
    assert IsPath(g, v, longer);
  }

  lemma ConnectedSymmetric(g: Grid, v: bool, p: Point, q: Point)
    requires Connected(g, v, p, q)
    ensures Connected(g, v, q, p)
  {
    var path :| IsPath(g, v, path) && |path| > 0 && path[0] == p && path[|path| - 1] == q;
    var n := |path|;
    var back := seq(n, i requires 0 <= i < n => path[n - 1 - i]);
    forall i | 0 < i < n
      ensures Adjacent(back[i - 1], back[i])
    {
      assert Adjacent(path[n - 1 - i], path[n - i]);
    }
    assert IsPath(g, v, back);
  }

  lemma ConnectedTransitive(g: Grid, v: bool, p: Point, q: Point, r: Point)
    requires Connected(g, v, p, q) && Connected(g, v, q, r)
    ensures Connected(g, v, p, r)
  {
    var a :| IsPath(g, v, a) && |a| > 0 && a[0] == p && a[|a| - 1] == q;
    var b :| IsPath(g, v, b) && |b| > 0 && b[0] == q && b[|b| - 1] == r;
    var joined := a + b[1..];
    forall i | 0 <= i < |joined|
      ensures Open(g, v, joined[i])
    {
      if i >= |a| {
        assert joined[i] == b[i - |a| + 1];
      }
    }
    forall i | 0 < i < |joined|
      ensures Adjacent(joined[i - 1], joined[i])
    {
      if i < |a| {
        assert joined[i - 1] == a[i - 1] && joined[i] == a[i];
      } else {
        var j := i - |a| + 1;
        assert joined[i - 1] == b[j - 1] && joined[i] == b[j];
      }
    }
    assert IsPath(g, v, joined);
  }

  lemma InComponent(g: Grid, v: bool, p: Point, q: Point)
    ensures q in Component(g, v, p) <==> Connected(g, v, p, q)
  {
    if Connected(g, v, p, q) {
      ConnectedEndsOpen(g, v, p, q);
      assert q == Point(q.x, q.y);
    }
  }

  /** Cells joined to each other have the same component. */
  lemma SameComponent(g: Grid, v: bool, p: Point, q: Point)
    requires Connected(g, v, p, q)
    ensures Component(g, v, p) == Component(g, v, q)
  {
    forall r | true
      ensures r in Component(g, v, p) <==> r in Component(g, v, q)
    {
      InComponent(g, v, p, r);
      InComponent(g, v, q, r);
      ConnectedSymmetric(g, v, p, q);
      if Connected(g, v, p, r) {
        ConnectedTransitive(g, v, q, p, r);
      }
      if Connected(g, v, q, r) {
        ConnectedTransitive(g, v, p, q, r);
      }
    }
  }

  /** A set of cells that every `v` neighbour of its members belongs to. */
  ghost predicate Closed(g: Grid, v: bool, s: set<Point>)
  {
    forall a, b :: a in s && Adjacent(a, b) && Open(g, v, b) ==> b in s
  }

  lemma {:induction false} ClosedKeepsPath(g: Grid, v: bool, s: set<Point>, path: seq<Point>)
    requires Closed(g, v, s) && IsPath(g, v, path) && |path| > 0 && path[0] in s
    ensures forall i :: 0 <= i < |path| ==> path[i] in s
    decreases |path|
  {
    var n := |path|;
    if n > 1 {
      var prefix := path[..n - 1];
      assert IsPath(g, v, prefix) by {
        forall i | 0 < i < |prefix|
          ensures Adjacent(prefix[i - 1], prefix[i])
        {
          assert Adjacent(path[i - 1], path[i]);
        }
      }
      ClosedKeepsPath(g, v, s, prefix);
      assert path[n - 2] == prefix[n - 2];
      assert Adjacent(path[n - 2], path[n - 1]) && Open(g, v, path[n - 1]);
    }
  }

  /** A closed set holds every cell joined to one of its members. */
  lemma ClosedKeepsComponent(g: Grid, v: bool, s: set<Point>, p: Point, q: Point)
    requires Closed(g, v, s) && p in s && Connected(g, v, p, q)
    ensures q in s
  {
    var path :| IsPath(g, v, path) && |path| > 0 && path[0] == p && path[|path| - 1] == q;
    ClosedKeepsPath(g, v, s, path);
  }

  /** No two entries of `ps` are the same point. */
  predicate Distinct(ps: seq<Point>)
  {
    forall i, j :: 0 <= i < j < |ps| ==> ps[i] != ps[j]
  }

  function Elements(ps: seq<Point>): (s: set<Point>)
    ensures forall p :: p in s <==> p in ps
  {
    set p | p in ps
  }

  lemma {:induction false} DistinctCount(ps: seq<Point>)
    requires Distinct(ps)
    ensures |Elements(ps)| == |ps|
    decreases |ps|
  {
    if |ps| > 0 {
      var n := |ps|;
      var prefix := ps[..n - 1];
      DistinctCount(prefix);
      assert Elements(ps) == Elements(prefix) + {ps[n - 1]};
      assert ps[n - 1] !in prefix;
    }
  }

  /** A region listed without repetition that holds exactly the cells joined to `s` is its component. */
  lemma RegionIsComponent(g: Grid, v: bool, s: Point, region: seq<Point>)
    requires Distinct(region)
    requires forall p :: p in region <==> Connected(g, v, s, p)
    ensures Elements(region) == Component(g, v, s)
    ensures |region| == |Component(g, v, s)|
    ensures forall p :: p in region ==> Component(g, v, p) == Component(g, v, s)
  {
    forall p | true
      ensures p in Elements(region) <==> p in Component(g, v, s)
    {
      InComponent(g, v, s, p);
    }
    DistinctCount(region);
    forall p | p in region
      ensures Component(g, v, p) == Component(g, v, s)
    {
      SameComponent(g, v, s, p);
    }
  }

  // ----- The breadth-first flood shared by both searches -----

  /** `p` lies on the outer rows or columns of a `width` × `height` image. */
  predicate OnBorder(width: int, height: int, p: Point)
  {
    p.x == 0 || p.y == 0 || p.x == width - 1 || p.y == height - 1
  }

  /**
   * The state of a flood from `s` over the `v` cells of `g`, with `cells` the
   * searched image and `vis` the visited marks: `found` (the region so far
   * followed by the queue) lists distinct `v` cells joined to `s` that were
   * not seen before; `vis` marks exactly the cells seen before and the found
   * ones; every unvisited cell of `cells` agrees with `g` and is in `unseen`.
   */
  ghost predicate FloodInv(g: Grid, v: bool, cells: Grid, vis: Grid, height: int, seen: set<Point>,
                           s: Point, found: seq<Point>, unseen: set<Point>)
  {
    |cells| == |vis| == |g| && Rectangular(g, height) && Rectangular(cells, height) && Rectangular(vis, height) &&
    |found| > 0 && found[0] == s && Distinct(found) &&
    (forall i :: 0 <= i < |found| ==> Open(g, v, found[i]) && found[i] !in seen && Connected(g, v, s, found[i])) &&
    (forall x, y :: 0 <= x < |vis| && 0 <= y < height ==>
      (vis[x][y] <==> Point(x, y) in seen || Point(x, y) in found)) &&
    (forall x, y :: 0 <= x < |vis| && 0 <= y < height && !vis[x][y] ==>
      cells[x][y] == g[x][y] && Point(x, y) in unseen)
  }

  /** Marking an unvisited `v` cell joined to `s` and appending it to the queue keeps the flood's state. */
  lemma FloodVisit(g: Grid, v: bool, cells: Grid, vis: Grid, vis': Grid, height: int, seen: set<Point>,
                   s: Point, found: seq<Point>, unseen: set<Point>, q: Point)
    requires FloodInv(g, v, cells, vis, height, seen, s, found, unseen)
    requires 0 <= q.x < |vis| && 0 <= q.y < height && cells[q.x][q.y] == v && !vis[q.x][q.y]
    requires Connected(g, v, s, q)
    requires vis' == vis[q.x := vis[q.x][q.y := true]]
    ensures FloodInv(g, v, cells, vis', height, seen, s, found + [q], unseen - {q})
  {
    assert q == Point(q.x, q.y);
    assert q !in found && q !in seen;
    var found' := found + [q];
    forall i, j | 0 <= i < j < |found'|
      ensures found'[i] != found'[j]
    {
      if j < |found| {
        assert found[i] != found[j];
      }
    }
    forall x, y | 0 <= x < |vis| && 0 <= y < height
      ensures vis'[x][y] <==> Point(x, y) in seen || Point(x, y) in found'
    {
      if x == q.x && y == q.y {
        assert Point(x, y) == q;
      }
    }
  }

  /** `visited[x, y] = true`. */
  method MarkVisited(visited: array2<bool>, x: int, y: int)
    requires 0 <= x < visited.Length0 && 0 <= y < visited.Length1
    modifies visited
    ensures forall a, b :: 0 <= a < visited.Length0 && 0 <= b < visited.Length1 ==>
      visited[a, b] == (old(visited[a, b]) || (a == x && b == y))
    ensures Cells(visited) == old(Cells(visited))[x := old(Cells(visited))[x][y := true]]
  {
    ghost var before := Cells(visited);
    visited[x, y] := true;
    GridsEqual(Cells(visited), before[x := before[x][y := true]], visited.Length1);
  }

  lemma RemoveOne(unseen: set<Point>, q: Point)
    requires q in unseen
    ensures |unseen - {q}| == |unseen| - 1
  {
    assert unseen == (unseen - {q}) + {q};
  }

  lemma AppendToQueue(region: seq<Point>, queue: seq<Point>, q: Point)
    ensures region + (queue + [q]) == (region + queue) + [q]
  {
  }

  /** `q` is inside `visited` and marked. */
  ghost predicate Marked(visited: array2<bool>, q: Point)
    reads visited
  {
    0 <= q.x < visited.Length0 && 0 <= q.y < visited.Length1 && visited[q.x, q.y]
  }

  /** One neighbour `(nx, ny)` of the cell `c`: queued and marked when it is inside, holds `v` and is unvisited. */
  method VisitCell(grid: array2<bool>, v: bool, visited: array2<bool>, nx: int, ny: int, queue: seq<Point>,
                   ghost g: Grid, ghost seen: set<Point>, ghost s: Point, ghost region: seq<Point>,
                   ghost unseen: set<Point>, ghost c: Point)
    returns (queue': seq<Point>, ghost unseen': set<Point>)
    requires grid != visited
    requires FloodInv(g, v, Cells(grid), Cells(visited), grid.Length1, seen, s, region + queue, unseen)
    requires Connected(g, v, s, c) && Adjacent(c, Point(nx, ny))
    modifies visited
    ensures FloodInv(g, v, Cells(grid), Cells(visited), grid.Length1, seen, s, region + queue', unseen')
    ensures |unseen'| <= |unseen| && |queue'| - |queue| == |unseen| - |unseen'|
    ensures forall q :: old(Marked(visited, q)) ==> Marked(visited, q)
    ensures forall q: Point :: q.x == nx && q.y == ny && Open(g, v, q) ==> Marked(visited, q)
  {
    queue', unseen' := queue, unseen;
    if nx >= 0 && nx < grid.Length0 && ny >= 0 && ny < grid.Length1 {
      ghost var before := Cells(visited);
      if grid[nx, ny] == v && !visited[nx, ny] {
        var q := Point(nx, ny);
        assert q in unseen && !before[nx][ny];
        ConnectedStep(g, v, s, c, q);
        MarkVisited(visited, nx, ny);
        FloodVisit(g, v, Cells(grid), before, Cells(visited), grid.Length1, seen, s, region + queue, unseen, q);
        AppendToQueue(region, queue, q);
        RemoveOne(unseen, q);
        queue' := queue + [q];
        unseen' := unseen - {q};
      } else if !visited[nx, ny] {
        assert before[nx][ny] == visited[nx, ny];
      }
    }
  }

  /** The inner loop of the flood for one row `c.y + dy` of the neighbourhood of `c`. */
  method VisitRow(grid: array2<bool>, v: bool, visited: array2<bool>, c: Point, dy: int, queue: seq<Point>,
                  ghost g: Grid, ghost seen: set<Point>, ghost s: Point, ghost region: seq<Point>,
                  ghost unseen: set<Point>)
    returns (queue': seq<Point>, ghost unseen': set<Point>)
    requires grid != visited && -1 <= dy <= 1
    requires FloodInv(g, v, Cells(grid), Cells(visited), grid.Length1, seen, s, region + queue, unseen)
    requires Connected(g, v, s, c)
    modifies visited
    ensures FloodInv(g, v, Cells(grid), Cells(visited), grid.Length1, seen, s, region + queue', unseen')
    ensures |unseen'| <= |unseen| && |queue'| - |queue| == |unseen| - |unseen'|
    ensures forall q :: old(Marked(visited, q)) ==> Marked(visited, q)
    ensures forall q :: Adjacent(c, q) && Open(g, v, q) && q.y == c.y + dy ==> Marked(visited, q)
  {
    queue' := queue;
    unseen' := unseen;
    var dx := -1;
    while dx <= 1
      invariant -1 <= dx <= 2
      invariant FloodInv(g, v, Cells(grid), Cells(visited), grid.Length1, seen, s, region + queue', unseen')
      invariant |unseen'| <= |unseen| && |queue'| - |queue| == |unseen| - |unseen'|
      invariant forall q :: old(Marked(visited, q)) ==> Marked(visited, q)
      invariant forall q :: Adjacent(c, q) && Open(g, v, q) && q.y == c.y + dy && q.x < c.x + dx ==> Marked(visited, q)
    {
      label before:
      queue', unseen' := VisitCell(grid, v, visited, c.x + dx, c.y + dy, queue', g, seen, s, region, unseen', c);
      forall q | Adjacent(c, q) && Open(g, v, q) && q.y == c.y + dy && q.x <= c.x + dx
        ensures Marked(visited, q)
      {
        if q.x < c.x + dx {
          assert old@before(Marked(visited, q));
        }
      }
      dx := dx + 1;
    }
  }

  /**
   * The two inner loops of the flood for the cell `c` just taken from the
   * queue: every in-bounds neighbour that holds `v` and is not yet visited is
   * marked and queued.
   */
  method VisitNeighbours(grid: array2<bool>, v: bool, visited: array2<bool>, c: Point, queue: seq<Point>,
                         ghost g: Grid, ghost seen: set<Point>, ghost s: Point, ghost region: seq<Point>,
                         ghost unseen: set<Point>)
    returns (queue': seq<Point>, ghost unseen': set<Point>)
    requires grid != visited
    requires FloodInv(g, v, Cells(grid), Cells(visited), grid.Length1, seen, s, region + queue, unseen)
    requires Connected(g, v, s, c)
    modifies visited
    ensures FloodInv(g, v, Cells(grid), Cells(visited), grid.Length1, seen, s, region + queue', unseen')
    ensures |unseen'| <= |unseen| && |queue'| - |queue| == |unseen| - |unseen'|
    ensures forall q :: old(Marked(visited, q)) ==> Marked(visited, q)
    ensures forall q :: Adjacent(c, q) && Open(g, v, q) ==> Marked(visited, q)
  {
    queue' := queue;
    unseen' := unseen;
    var dy := -1;
    while dy <= 1
      invariant -1 <= dy <= 2
      invariant FloodInv(g, v, Cells(grid), Cells(visited), grid.Length1, seen, s, region + queue', unseen')
      invariant |unseen'| <= |unseen| && |queue'| - |queue| == |unseen| - |unseen'|
      invariant forall q :: old(Marked(visited, q)) ==> Marked(visited, q)
      invariant forall q :: Adjacent(c, q) && Open(g, v, q) && q.y < c.y + dy ==> Marked(visited, q)
    {
      label before:
      queue', unseen' := VisitRow(grid, v, visited, c, dy, queue', g, seen, s, region, unseen');
      forall q | Adjacent(c, q) && Open(g, v, q) && q.y <= c.y + dy
        ensures Marked(visited, q)
      {
        if q.y < c.y + dy {
          assert old@before(Marked(visited, q));
        }
      }
      dy := dy + 1;
    }
  }

  /**
   * What a flood needs before it starts: `vis` marks exactly the cells in
   * `seen`, which is closed; every unvisited cell of `cells` agrees with `g`.
   */
  ghost predicate FloodReady(g: Grid, v: bool, cells: Grid, vis: Grid, height: int, seen: set<Point>)
  {
    |cells| == |vis| == |g| && Rectangular(g, height) && Rectangular(cells, height) && Rectangular(vis, height) &&
    (forall x, y :: 0 <= x < |vis| && 0 <= y < height ==>
      (vis[x][y] <==> Point(x, y) in seen) && (!vis[x][y] ==> cells[x][y] == g[x][y])) &&
    Closed(g, v, seen)
  }

  /**
   * What a flood from `s` leaves: `region` lists, once each, exactly the `v`
   * cells joined to `s`, none of them seen before; `vis` marks the cells seen
   * before and the region; the two together are closed; `touchesBorder` says
   * whether a region cell lies on the border.
   */
  ghost predicate FloodDone(g: Grid, v: bool, vis: Grid, height: int, seen: set<Point>, s: Point,
                            region: seq<Point>, touchesBorder: bool)
  {
    |region| > 0 && region[0] == s && Distinct(region) &&
    (forall p :: p in region <==> Connected(g, v, s, p)) &&
    (forall p :: p in region ==> p !in seen) &&
    Rectangular(vis, height) &&
    (forall x, y :: 0 <= x < |vis| && 0 <= y < height ==> (vis[x][y] <==> Point(x, y) in seen || Point(x, y) in region)) &&
    Closed(g, v, seen + Elements(region)) &&
    (touchesBorder <==> exists p :: p in region && OnBorder(|vis|, height, p))
  }

  /** The unvisited cells of `vis`. */
  ghost function Unvisited(vis: Grid): set<Point>
  {
    set x, y | 0 <= x < |vis| && 0 <= y < |vis[x]| && !vis[x][y] :: Point(x, y)
  }

  /** Marking the start cell `s` and queueing it sets up the flood's state. */
  lemma FloodStart(g: Grid, v: bool, cells: Grid, vis: Grid, vis': Grid, height: int, seen: set<Point>, s: Point)
    requires FloodReady(g, v, cells, vis, height, seen)
    requires 0 <= s.x < |vis| && 0 <= s.y < height && cells[s.x][s.y] == v && !vis[s.x][s.y]
    requires vis' == vis[s.x := vis[s.x][s.y := true]]
    ensures FloodLoop(g, v, cells, vis', height, seen, s, [], [s], Unvisited(vis) - {s}, false)
  {
    assert [] + [s] == [s];
    assert s == Point(s.x, s.y);
    ConnectedToItself(g, v, s);
    StartMarked(vis, vis', height, seen, s);
    StartUnvisited(g, cells, vis, vis', height, s);
  }

  /** After marking `s`, the marks are the seen cells and `s`. */
  lemma StartMarked(vis: Grid, vis': Grid, height: int, seen: set<Point>, s: Point)
    requires Rectangular(vis, height) && 0 <= s.x < |vis| && 0 <= s.y < height
    requires forall x, y :: 0 <= x < |vis| && 0 <= y < height ==> (vis[x][y] <==> Point(x, y) in seen)
    requires vis' == vis[s.x := vis[s.x][s.y := true]]
    ensures forall x, y :: 0 <= x < |vis'| && 0 <= y < height ==> (vis'[x][y] <==> Point(x, y) in seen || Point(x, y) in [s])
  {
    forall x, y | 0 <= x < |vis'| && 0 <= y < height
      ensures vis'[x][y] <==> Point(x, y) in seen || Point(x, y) in [s]
    {
      if x == s.x && y == s.y {
        assert Point(x, y) == s;
      }
    }
  }

  /** After marking `s`, every unmarked cell is an unvisited cell other than `s` and still agrees with `g`. */
  lemma StartUnvisited(g: Grid, cells: Grid, vis: Grid, vis': Grid, height: int, s: Point)
    requires Rectangular(vis, height) && |cells| == |vis| == |g| && Rectangular(cells, height) && Rectangular(g, height)
    requires 0 <= s.x < |vis| && 0 <= s.y < height
    requires forall x, y :: 0 <= x < |vis| && 0 <= y < height && !vis[x][y] ==> cells[x][y] == g[x][y]
    requires vis' == vis[s.x := vis[s.x][s.y := true]]
    ensures forall x, y :: 0 <= x < |vis'| && 0 <= y < height && !vis'[x][y] ==>
      cells[x][y] == g[x][y] && Point(x, y) in Unvisited(vis) - {s}
  {
    forall x, y | 0 <= x < |vis'| && 0 <= y < height && !vis'[x][y]
      ensures cells[x][y] == g[x][y] && Point(x, y) in Unvisited(vis) - {s}
    {
      assert !vis[x][y];
      assert Point(x, y) != s;
    }
  }

  /** Once the queue is empty, the flood is done. */
  lemma FloodEnd(g: Grid, v: bool, cells: Grid, vis: Grid, height: int, seen: set<Point>, s: Point,
                 region: seq<Point>, queue: seq<Point>, unseen: set<Point>, touchesBorder: bool)
    requires FloodLoop(g, v, cells, vis, height, seen, s, region, queue, unseen, touchesBorder) && |queue| == 0
    requires Closed(g, v, seen)
    ensures FloodDone(g, v, vis, height, seen, s, region, touchesBorder)
  {
    assert region + queue == region;
    var all := seen + Elements(region);
    forall a, b | a in all && Adjacent(a, b) && Open(g, v, b)
      ensures b in all
    {
      if a !in seen {
        assert vis[b.x][b.y];
        assert b == Point(b.x, b.y);
      }
    }
    forall p | Connected(g, v, s, p)
      ensures p in region
    {
      ClosedKeepsComponent(g, v, all, s, p);
      if p in seen {
        ConnectedSymmetric(g, v, s, p);
        ClosedKeepsComponent(g, v, seen, p, s);
        assert false;
      }
    }
    AnyOnBorderIff(region, |vis|, height);
  }

  /** Some cell of `ps` lies on the border of a `width` × `height` image. */
  function AnyOnBorder(ps: seq<Point>, width: int, height: int): bool
  {
    |ps| > 0 && (AnyOnBorder(ps[..|ps| - 1], width, height) || OnBorder(width, height, ps[|ps| - 1]))
  }

  lemma {:induction false} AnyOnBorderIff(ps: seq<Point>, width: int, height: int)
    ensures AnyOnBorder(ps, width, height) <==> exists p :: p in ps && OnBorder(width, height, p)
    decreases |ps|
  {
    if |ps| > 0 {
      var prefix := ps[..|ps| - 1];
      AnyOnBorderIff(prefix, width, height);
      assert ps == prefix + [ps[|ps| - 1]];
    }
  }

  lemma AppendMembers(ps: seq<Point>, c: Point)
    ensures forall a :: a in ps + [c] <==> a in ps || a == c
  {
  }

  lemma Dequeue(region: seq<Point>, queue: seq<Point>)
    requires |queue| > 0
    ensures (region + [queue[0]]) + queue[1..] == region + queue
    ensures (region + queue)[|region|] == queue[0]
  {
  }

  /**
   * The state of the flood loop: the flood state of the region followed by
   * the queue, every `v` neighbour of a region cell visited, and
   * `touchesBorder` recording whether a region cell lies on the border.
   */
  ghost predicate FloodLoop(g: Grid, v: bool, cells: Grid, vis: Grid, height: int, seen: set<Point>, s: Point,
                            region: seq<Point>, queue: seq<Point>, unseen: set<Point>, touchesBorder: bool)
  {
    FloodInv(g, v, cells, vis, height, seen, s, region + queue, unseen) &&
    (forall a, q :: a in region && Adjacent(a, q) && Open(g, v, q) ==> vis[q.x][q.y]) &&
    touchesBorder == AnyOnBorder(region, |vis|, height)
  }

  /** One turn of the flood loop: take the head of the queue into the region and visit its neighbours. */
  method FloodStep(grid: array2<bool>, v: bool, visited: array2<bool>, queue: seq<Point>, region: seq<Point>,
                   touchesBorder: bool, ghost g: Grid, ghost seen: set<Point>, ghost s: Point, ghost unseen: set<Point>)
    returns (queue': seq<Point>, region': seq<Point>, touchesBorder': bool, ghost unseen': set<Point>)
    requires grid != visited && |queue| > 0
    requires FloodLoop(g, v, Cells(grid), Cells(visited), grid.Length1, seen, s, region, queue, unseen, touchesBorder)
    modifies visited
    ensures FloodLoop(g, v, Cells(grid), Cells(visited), grid.Length1, seen, s, region', queue', unseen', touchesBorder')
    ensures |unseen'| < |unseen| || (|unseen'| == |unseen| && |queue'| < |queue|)
  {
    var width, height := grid.Length0, grid.Length1;
    var c := queue[0];
    Dequeue(region, queue);
    region' := region + [c];
    AppendMembers(region, c);
    assert region'[..|region'| - 1] == region;
    touchesBorder' := touchesBorder;
    if c.x == 0 || c.y == 0 || c.x == width - 1 || c.y == height - 1 {
      touchesBorder' := true;
    }
    ghost var vis0 := Cells(visited);
    label before:
    queue', unseen' := VisitNeighbours(grid, v, visited, c, queue[1..], g, seen, s, region', unseen);
    forall a, q | a in region' && Adjacent(a, q) && Open(g, v, q)
      ensures Cells(visited)[q.x][q.y]
    {
      if a in region {
        assert vis0[q.x][q.y];
        assert old@before(Marked(visited, q));
      }
      assert Marked(visited, q);
    }
  }

  /**
   * One breadth-first flood from `(sx, sy)` over the cells of `grid` that
   * hold `v`, marking `visited`: the region (in the order cells leave the
   * queue) and whether one of its cells lies on the image border. This is
   * the search both `FillHoles` (on background, `v` false) and
   * `FindConnectedComponents` (on foreground, `v` true) run from each unvisited
   * cell; the latter ignores `touchesBorder`. `g` is the mask being searched;
   * `grid` agrees with it on every unvisited cell.
   */
  method Flood(grid: array2<bool>, v: bool, visited: array2<bool>, sx: int, sy: int,
               ghost g: Grid, ghost seen: set<Point>)
    returns (region: seq<Point>, touchesBorder: bool)
    requires grid != visited && FloodReady(g, v, Cells(grid), Cells(visited), grid.Length1, seen)
    requires 0 <= sx < grid.Length0 && 0 <= sy < grid.Length1 && grid[sx, sy] == v && !visited[sx, sy]
    modifies visited
    ensures FloodDone(g, v, Cells(visited), grid.Length1, seen, Point(sx, sy), region, touchesBorder)
  {
    var width, height := grid.Length0, grid.Length1;
    ghost var s := Point(sx, sy);
    ghost var vis0 := Cells(visited);
    MarkVisited(visited, sx, sy);
    FloodStart(g, v, Cells(grid), vis0, Cells(visited), height, seen, s);
    var queue := [Point(sx, sy)];
    region := [];
    touchesBorder := false;
    ghost var unseen := Unvisited(vis0) - {s};
    while |queue| > 0
      invariant FloodLoop(g, v, Cells(grid), Cells(visited), height, seen, s, region, queue, unseen, touchesBorder)
      decreases |unseen|, |queue|
    {
      queue, region, touchesBorder, unseen := FloodStep(grid, v, visited, queue, region, touchesBorder, g, seen, s, unseen);
    }
    FloodEnd(g, v, Cells(grid), Cells(visited), height, seen, s, region, queue, unseen, touchesBorder);
  }

  // ----- Hole filling -----

  /** Some cell joined to `p` through background lies on the border of `g`. */
  ghost predicate ReachesBorder(g: Grid, height: int, p: Point)
  {
    exists q :: Connected(g, false, p, q) && OnBorder(|g|, height, q)
  }

  /** `p` lies in a background region that does not reach the border and has at most `maxHoleSize` cells. */
  ghost predicate IsHole(g: Grid, height: int, maxHoleSize: int, p: Point)
  {
    Open(g, false, p) && !ReachesBorder(g, height, p) && |Component(g, false, p)| <= maxHoleSize
  }

  /** The mask with every hole set: what `FillHoles` returns. */
  ghost function FillHolesOf(g: Grid, height: nat, maxHoleSize: int): Grid
  {
    Tabulate(|g|, height, (x, y) => Cell(g, x, y) || IsHole(g, height, maxHoleSize, Point(x, y)))
  }

  /**
   * The state of the hole-filling scan over the mask `g`: `vis` marks exactly
   * `seen`, which is closed under background adjacency, and `f` is `g` with
   * the holes among the seen cells set.
   */
  ghost predicate FillState(g: Grid, height: int, maxHoleSize: int, f: Grid, vis: Grid, seen: set<Point>)
  {
    |f| == |vis| == |g| && Rectangular(g, height) && Rectangular(f, height) && Rectangular(vis, height) &&
    (forall x, y :: 0 <= x < |g| && 0 <= y < height ==> (vis[x][y] <==> Point(x, y) in seen)) &&
    (forall x, y :: 0 <= x < |g| && 0 <= y < height ==>
      f[x][y] == (g[x][y] || (Point(x, y) in seen && IsHole(g, height, maxHoleSize, Point(x, y))))) &&
    Closed(g, false, seen)
  }

  /** Every background cell before `(x, y)` in row-major order has been seen. */
  ghost predicate ScannedTo(g: Grid, v: bool, seen: set<Point>, x: int, y: int)
  {
    forall a, b :: 0 <= a < |g| && 0 <= b < |g[a]| && (b < y || (b == y && a < x)) && g[a][b] == v ==>
      Point(a, b) in seen
  }

  /** The scan advances by one cell once that cell, when it holds `v`, has been seen. */
  lemma ScanAdvances(g: Grid, v: bool, seen: set<Point>, seen': set<Point>, x: int, y: int)
    requires ScannedTo(g, v, seen, x, y) && seen <= seen'
    requires 0 <= x < |g| && 0 <= y < |g[x]| && g[x][y] == v ==> Point(x, y) in seen'
    ensures ScannedTo(g, v, seen', x + 1, y)
    ensures x + 1 >= |g| ==> ScannedTo(g, v, seen', 0, y + 1)
  {
  }

  /** The cells of a flooded region all share its component, so all of them are holes or none is. */
  lemma RegionHoles(g: Grid, height: int, maxHoleSize: int, vis: Grid, seen: set<Point>, s: Point,
                    region: seq<Point>, touchesBorder: bool)
    requires |vis| == |g| && Rectangular(g, height)
    requires FloodDone(g, false, vis, height, seen, s, region, touchesBorder)
    ensures forall p :: p in region ==> (IsHole(g, height, maxHoleSize, p) <==> !touchesBorder && |region| <= maxHoleSize)
  {
    RegionIsComponent(g, false, s, region);
    forall p | p in region
      ensures ReachesBorder(g, height, p) <==> touchesBorder
    {
      ConnectedEndsOpen(g, false, s, p);
      if ReachesBorder(g, height, p) {
        var q :| Connected(g, false, p, q) && OnBorder(|g|, height, q);
        ConnectedTransitive(g, false, s, p, q);
      }
      if touchesBorder {
        var q :| q in region && OnBorder(|vis|, height, q);
        ConnectedSymmetric(g, false, s, p);
        ConnectedTransitive(g, false, p, s, q);
      }
    }
  }

  /** After a flood from an unvisited background cell, and the fill of its region when it is a hole, the scan state holds again. */
  lemma FillStep(g: Grid, height: int, maxHoleSize: int, f: Grid, f': Grid, vis: Grid, vis': Grid,
                 seen: set<Point>, s: Point, region: seq<Point>, touchesBorder: bool)
    requires FillState(g, height, maxHoleSize, f, vis, seen)
    requires |vis'| == |g| && FloodDone(g, false, vis', height, seen, s, region, touchesBorder)
    requires |f'| == |g| && Rectangular(f', height)
    requires forall x, y :: 0 <= x < |g| && 0 <= y < height ==>
      f'[x][y] == (f[x][y] || (!touchesBorder && |region| <= maxHoleSize && Point(x, y) in region))
    ensures FillState(g, height, maxHoleSize, f', vis', seen + Elements(region))
  {
    RegionHoles(g, height, maxHoleSize, vis', seen, s, region, touchesBorder);
    forall x, y | 0 <= x < |g| && 0 <= y < height
      ensures f'[x][y] == (g[x][y] || (Point(x, y) in seen + Elements(region) && IsHole(g, height, maxHoleSize, Point(x, y))))
    {
      var p := Point(x, y);
      if p in region {
        ConnectedEndsOpen(g, false, s, p);
        assert p !in seen;
      }
    }
  }

  /** `copy` is a fresh array with the cells of `mask`: `(bool[,])mask.Clone()`. */
  method CloneMask(mask: array2<bool>) returns (copy: array2<bool>)
    ensures fresh(copy) && copy.Length0 == mask.Length0 && copy.Length1 == mask.Length1
    ensures Cells(copy) == Cells(mask)
  {
    copy := new bool[mask.Length0, mask.Length1]((x, y) reads mask
      requires 0 <= x < mask.Length0 && 0 <= y < mask.Length1 => mask[x, y]);
    GridsEqual(Cells(copy), Cells(mask), mask.Length1);
  }

  /** `foreach (var pt in region) filled[pt.x, pt.y] = true;` */
  method SetRegion(filled: array2<bool>, region: seq<Point>)
    requires forall p :: p in region ==> 0 <= p.x < filled.Length0 && 0 <= p.y < filled.Length1
    modifies filled
    ensures forall x, y :: 0 <= x < filled.Length0 && 0 <= y < filled.Length1 ==>
      filled[x, y] == (old(filled[x, y]) || Point(x, y) in region)
  {
    var i := 0;
    while i < |region|
      invariant 0 <= i <= |region|
      invariant forall x, y :: 0 <= x < filled.Length0 && 0 <= y < filled.Length1 ==>
        filled[x, y] == (old(filled[x, y]) || Point(x, y) in region[..i])
    {
      var pt := region[i];
      filled[pt.x, pt.y] := true;
      assert region[..i + 1] == region[..i] + [pt];
      i := i + 1;
    }
    assert region[..i] == region;
  }

  /**
   * One step of the scan of `FillHoles` at an unvisited background cell
   * `(x, y)`: flood its region, and set the region when it does not touch
   * the border and has at most `maxHoleSize` cells.
   */
  method FillFrom(filled: array2<bool>, visited: array2<bool>, x: int, y: int, maxHoleSize: int,
                  ghost g: Grid, ghost seen: set<Point>)
    returns (ghost seen': set<Point>)
    requires filled != visited && filled.Length0 == visited.Length0 && filled.Length1 == visited.Length1
    requires FillState(g, filled.Length1, maxHoleSize, Cells(filled), Cells(visited), seen)
    requires 0 <= x < filled.Length0 && 0 <= y < filled.Length1 && !filled[x, y] && !visited[x, y]
    modifies filled, visited
    ensures FillState(g, filled.Length1, maxHoleSize, Cells(filled), Cells(visited), seen')
    ensures seen <= seen' && Point(x, y) in seen'
  {
    var height := filled.Length1;
    assert FloodReady(g, false, Cells(filled), Cells(visited), height, seen);
    var region, touchesBorder := Flood(filled, false, visited, x, y, g, seen);
    ghost var f := Cells(filled);
    var fill := !touchesBorder && |region| <= maxHoleSize;
    if fill {
      forall p | p in region
        ensures 0 <= p.x < filled.Length0 && 0 <= p.y < filled.Length1
      {
        ConnectedEndsOpen(g, false, Point(x, y), p);
      }
      SetRegion(filled, region);
    }
    FillStep(g, height, maxHoleSize, f, Cells(filled), old(Cells(visited)), Cells(visited), seen, Point(x, y), region, touchesBorder);
    seen' := seen + Elements(region);
    ConnectedToItself(g, false, Point(x, y));
  }

  /**
   * Sets every hole of the mask: every 8-connected background region that
   * touches no border cell and has at most `maxHoleSize` cells. The scan goes
   * row by row; each unvisited background cell starts a flood.
   */
  method FillHoles(mask: array2<bool>, maxHoleSize: int) returns (filled: array2<bool>)
    ensures fresh(filled) && filled.Length0 == mask.Length0 && filled.Length1 == mask.Length1
    ensures Cells(filled) == FillHolesOf(Cells(mask), mask.Length1, maxHoleSize)
  {
    var width, height := mask.Length0, mask.Length1;
    ghost var g := Cells(mask);
    filled := CloneMask(mask);
    var visited := new bool[width, height]((_, _) => false);
    ghost var seen: set<Point> := {};
    assert FillState(g, height, maxHoleSize, Cells(filled), Cells(visited), seen);
    var y := 0;
    while y < height
      invariant 0 <= y <= height
      invariant fresh(visited) && filled != visited && visited.Length0 == width && visited.Length1 == height
      invariant FillState(g, height, maxHoleSize, Cells(filled), Cells(visited), seen)
      invariant ScannedTo(g, false, seen, 0, y)
    {
      var x := 0;
      while x < width
        invariant 0 <= x <= width
        invariant FillState(g, height, maxHoleSize, Cells(filled), Cells(visited), seen)
        invariant ScannedTo(g, false, seen, x, y)
        invariant x == width ==> ScannedTo(g, false, seen, 0, y + 1)
      {
        ghost var seenBefore := seen;
        if !filled[x, y] && !visited[x, y] {
          seen := FillFrom(filled, visited, x, y, maxHoleSize, g, seen);
        }
        ScanAdvances(g, false, seenBefore, seen, x, y);
        x := x + 1;
      }
      y := y + 1;
    }
    GridsEqual(Cells(filled), FillHolesOf(g, height, maxHoleSize), height);
  }

  // ----- Connected components -----

  /** `p` comes before `q` in the scan order: row by row, left to right within a row. */
  predicate RowMajorBefore(p: Point, q: Point)
  {
    p.y < q.y || (p.y == q.y && p.x < q.x)
  }

  /** `p` is the first cell of its foreground component in the scan order. */
  ghost predicate FirstOfComponent(g: Grid, p: Point)
  {
    forall q :: Connected(g, true, p, q) ==> !RowMajorBefore(q, p)
  }

  /** The non-empty lists come in the scan order of their first cells. */
  predicate InScanOrder(components: seq<seq<Point>>)
  {
    forall k, l :: 0 <= k < l < |components| && |components[k]| > 0 && |components[l]| > 0 ==>
      RowMajorBefore(components[k][0], components[l][0])
  }

  /**
   * `comp` lists, once each, the cells of the foreground component of its
   * first entry, which is the first cell of that component in scan order,
   * and has at least `minArea` cells.
   */
  ghost predicate IsComponent(g: Grid, comp: seq<Point>, minArea: int)
  {
    |comp| > 0 && Distinct(comp) && |comp| >= minArea &&
    (forall p :: p in comp <==> Connected(g, true, comp[0], p)) &&
    FirstOfComponent(g, comp[0])
  }

  /**
   * `components` lists the foreground components of `g` that have at least
   * `minArea` cells: each is a component, they come in the scan order of
   * their first cells (so none is listed twice), and every foreground cell
   * of a large enough component is in one of them.
   */
  ghost predicate AreComponents(g: Grid, components: seq<seq<Point>>, minArea: int)
  {
    (forall k :: 0 <= k < |components| ==> IsComponent(g, components[k], minArea)) &&
    InScanOrder(components) &&
    (forall p :: Open(g, true, p) && |Component(g, true, p)| >= minArea ==>
      exists k :: 0 <= k < |components| && p in components[k])
  }

  /**
   * The state of the component scan: `vis` marks exactly `seen`, which is
   * closed under foreground adjacency; `components` are components in scan
   * order; every seen cell of a large enough component is listed.
   */
  ghost predicate ComponentsState(g: Grid, height: int, minArea: int, vis: Grid, seen: set<Point>,
                                  components: seq<seq<Point>>)
  {
    |vis| == |g| && Rectangular(g, height) && Rectangular(vis, height) &&
    (forall x, y :: 0 <= x < |g| && 0 <= y < height ==> (vis[x][y] <==> Point(x, y) in seen)) &&
    Closed(g, true, seen) &&
    (forall k :: 0 <= k < |components| ==> IsComponent(g, components[k], minArea)) &&
    InScanOrder(components) &&
    (forall p :: p in seen && |Component(g, true, p)| >= minArea ==>
      exists k :: 0 <= k < |components| && p in components[k])
  }

  /** The first cell of every listed component comes before `(x, y)`. */
  predicate FirstsBefore(components: seq<seq<Point>>, x: int, y: int)
  {
    forall k :: 0 <= k < |components| ==> |components[k]| > 0 && RowMajorBefore(components[k][0], Point(x, y))
  }

  /** An unvisited foreground cell reached by the scan is the first cell of its component. */
  lemma FirstOfUnseen(g: Grid, height: int, seen: set<Point>, s: Point)
    requires |g| > 0 && Rectangular(g, height) && Closed(g, true, seen)
    requires ScannedTo(g, true, seen, s.x, s.y) && s !in seen
    ensures FirstOfComponent(g, s)
  {
    forall q | Connected(g, true, s, q)
      ensures !RowMajorBefore(q, s)
    {
      if RowMajorBefore(q, s) {
        ConnectedEndsOpen(g, true, s, q);
        assert Point(q.x, q.y) == q;
        ConnectedSymmetric(g, true, s, q);
        ClosedKeepsComponent(g, true, seen, q, s);
        assert false;
      }
    }
  }

  /** A component whose first cell is the scan position can be appended: the list stays in scan order. */
  lemma AppendComponent(g: Grid, minArea: int, components: seq<seq<Point>>, comp: seq<Point>, x: int, y: int)
    requires forall k :: 0 <= k < |components| ==> IsComponent(g, components[k], minArea)
    requires InScanOrder(components)
    requires FirstsBefore(components, x, y)
    requires IsComponent(g, comp, minArea) && comp[0] == Point(x, y)
    ensures forall k :: 0 <= k < |components + [comp]| ==> IsComponent(g, (components + [comp])[k], minArea)
    ensures InScanOrder(components + [comp])
    ensures FirstsBefore(components + [comp], x + 1, y)
  {
    var all := components + [comp];
    forall k | 0 <= k < |all|
      ensures IsComponent(g, all[k], minArea)
    {
      if k < |components| {
        assert all[k] == components[k];
      }
    }
    forall k, l | 0 <= k < l < |all| && |all[k]| > 0 && |all[l]| > 0
      ensures RowMajorBefore(all[k][0], all[l][0])
    {
      assert all[k] == components[k];
      if l < |components| {
        assert all[l] == components[l];
      }
    }
  }

  /** Every cell seen so far, or just flooded, whose component is large enough is listed. */
  lemma CoverAfterFlood(g: Grid, minArea: int, seen: set<Point>, components: seq<seq<Point>>,
                        components': seq<seq<Point>>, s: Point, region: seq<Point>)
    requires forall p :: p in seen && |Component(g, true, p)| >= minArea ==>
      exists k :: 0 <= k < |components| && p in components[k]
    requires Distinct(region) && forall p :: p in region <==> Connected(g, true, s, p)
    requires components' == if |region| >= minArea then components + [region] else components
    ensures forall p :: p in seen + Elements(region) && |Component(g, true, p)| >= minArea ==>
      exists k :: 0 <= k < |components'| && p in components'[k]
  {
    RegionIsComponent(g, true, s, region);
    forall p | p in seen + Elements(region) && |Component(g, true, p)| >= minArea
      ensures exists k :: 0 <= k < |components'| && p in components'[k]
    {
      if p in seen {
        var k :| 0 <= k < |components| && p in components[k];
        assert components'[k] == components[k];
      } else {
        assert components'[|components|] == region;
      }
    }
  }

  /** The visited marks and the closed set after a flood are those of the seen cells and the region. */
  lemma SeenAfterFlood(g: Grid, height: int, v: bool, vis': Grid, seen: set<Point>, s: Point,
                       region: seq<Point>, touchesBorder: bool)
    requires |vis'| == |g| && FloodDone(g, v, vis', height, seen, s, region, touchesBorder)
    ensures forall x, y :: 0 <= x < |g| && 0 <= y < height ==> (vis'[x][y] <==> Point(x, y) in seen + Elements(region))
    ensures Closed(g, v, seen + Elements(region))
  {
  }

  /** After a flood from the unvisited foreground cell `(x, y)`, and the keeping of its region when large enough, the scan state holds again. */
  lemma ComponentStep(g: Grid, height: int, minArea: int, vis: Grid, vis': Grid, seen: set<Point>,
                      components: seq<seq<Point>>, components': seq<seq<Point>>, x: int, y: int,
                      region: seq<Point>, touchesBorder: bool)
    requires ComponentsState(g, height, minArea, vis, seen, components)
    requires FirstsBefore(components, x, y) && ScannedTo(g, true, seen, x, y)
    requires 0 <= x < |g| && 0 <= y < height && g[x][y] && Point(x, y) !in seen
    requires |vis'| == |g| && FloodDone(g, true, vis', height, seen, Point(x, y), region, touchesBorder)
    requires components' == if |region| >= minArea then components + [region] else components
    ensures ComponentsState(g, height, minArea, vis', seen + Elements(region), components')
    ensures FirstsBefore(components', x + 1, y)
  {
    var s := Point(x, y);
    SeenAfterFlood(g, height, true, vis', seen, s, region, touchesBorder);
    CoverAfterFlood(g, minArea, seen, components, components', s, region);
    if |region| >= minArea {
      FirstOfUnseen(g, height, seen, s);
      assert IsComponent(g, region, minArea);
      AppendComponent(g, minArea, components, region, x, y);
    } else {
      assert FirstsBefore(components', x + 1, y);
    }
  }

  /** At the end of a row, every listed first cell also comes before the start of the next row. */
  lemma FirstsNextRow(g: Grid, height: int, minArea: int, vis: Grid, seen: set<Point>,
                      components: seq<seq<Point>>, y: int)
    requires ComponentsState(g, height, minArea, vis, seen, components) && FirstsBefore(components, |g|, y)
    ensures FirstsBefore(components, 0, y + 1)
  {
    forall k | 0 <= k < |components|
      ensures components[k][0].x < |g|
    {
      var first := components[k][0];
      assert first in components[k];
      ConnectedEndsOpen(g, true, first, first);
    }
  }

  /** Once every cell has been scanned, the listed components are all of them. */
  lemma ComponentsComplete(g: Grid, height: int, minArea: int, vis: Grid, seen: set<Point>,
                           components: seq<seq<Point>>)
    requires ComponentsState(g, height, minArea, vis, seen, components)
    requires ScannedTo(g, true, seen, 0, height)
    ensures AreComponents(g, components, minArea)
  {
    forall p | Open(g, true, p) && |Component(g, true, p)| >= minArea
      ensures exists k :: 0 <= k < |components| && p in components[k]
    {
      assert Point(p.x, p.y) == p;
    }
  }

  /**
   * One step of the scan of `FindConnectedComponents` at an unvisited
   * foreground cell `(x, y)`: flood its component, and keep it when it has at
   * least `minArea` cells.
   */
  method ComponentFrom(mask: array2<bool>, visited: array2<bool>, x: int, y: int, minArea: int,
                       components: seq<seq<Point>>, ghost g: Grid, ghost seen: set<Point>)
    returns (components': seq<seq<Point>>, ghost seen': set<Point>)
    requires mask != visited && visited.Length0 == mask.Length0 && visited.Length1 == mask.Length1
    requires g == Cells(mask)
    requires ComponentsState(g, mask.Length1, minArea, Cells(visited), seen, components)
    requires FirstsBefore(components, x, y) && ScannedTo(g, true, seen, x, y)
    requires 0 <= x < mask.Length0 && 0 <= y < mask.Length1 && mask[x, y] && !visited[x, y]
    modifies visited
    ensures ComponentsState(g, mask.Length1, minArea, Cells(visited), seen', components')
    ensures FirstsBefore(components', x + 1, y)
    ensures seen <= seen' && Point(x, y) in seen'
  {
    assert FloodReady(g, true, Cells(mask), Cells(visited), mask.Length1, seen);
    ghost var vis := Cells(visited);
    var component, _ := Flood(mask, true, visited, x, y, g, seen);
    components' := components;
    if |component| >= minArea {
      components' := components + [component];
    }
    ghost var touchesBorder :| FloodDone(g, true, Cells(visited), mask.Length1, seen, Point(x, y), component, touchesBorder);
    ComponentStep(g, mask.Length1, minArea, vis, Cells(visited), seen, components, components', x, y, component, touchesBorder);
    seen' := seen + Elements(component);
  }

  /** The inner loop body of `FindConnectedComponents` at `(x, y)`: a flood when the cell is unvisited foreground. */
  method ScanComponentCell(mask: array2<bool>, visited: array2<bool>, x: int, y: int, minArea: int,
                           components: seq<seq<Point>>, ghost g: Grid, ghost seen: set<Point>)
    returns (components': seq<seq<Point>>, ghost seen': set<Point>)
    requires mask != visited && visited.Length0 == mask.Length0 && visited.Length1 == mask.Length1
    requires g == Cells(mask)
    requires ComponentsState(g, mask.Length1, minArea, Cells(visited), seen, components)
    requires FirstsBefore(components, x, y) && ScannedTo(g, true, seen, x, y)
    requires 0 <= x < mask.Length0 && 0 <= y < mask.Length1
    modifies visited
    ensures ComponentsState(g, mask.Length1, minArea, Cells(visited), seen', components')
    ensures FirstsBefore(components', x + 1, y) && ScannedTo(g, true, seen', x + 1, y)
    ensures x + 1 == mask.Length0 ==> FirstsBefore(components', 0, y + 1) && ScannedTo(g, true, seen', 0, y + 1)
  {
    components', seen' := components, seen;
    if mask[x, y] && !visited[x, y] {
      components', seen' := ComponentFrom(mask, visited, x, y, minArea, components, g, seen);
    } else {
      assert FirstsBefore(components', x + 1, y);
    }
    if x + 1 == mask.Length0 {
      FirstsNextRow(g, mask.Length1, minArea, Cells(visited), seen', components', y);
    }
    ScanAdvances(g, true, seen, seen', x, y);
  }

  /**
   * The 8-connected foreground components of the mask that have at least
   * `minArea` cells, each as the list of its cells in the order the flood
   * reached them, in the scan order of their first cells.
   */
  method FindConnectedComponents(mask: array2<bool>, minArea: int) returns (components: seq<seq<Point>>)
    ensures AreComponents(Cells(mask), components, minArea)
  {
    var width, height := mask.Length0, mask.Length1;
    ghost var g := Cells(mask);
    var visited := new bool[width, height]((_, _) => false);
    components := [];
    ghost var seen: set<Point> := {};
    assert ComponentsState(g, height, minArea, Cells(visited), seen, components);
    var y := 0;
    while y < height
      invariant 0 <= y <= height
      invariant fresh(visited) && visited.Length0 == width && visited.Length1 == height
      invariant ComponentsState(g, height, minArea, Cells(visited), seen, components)
      invariant FirstsBefore(components, 0, y) && ScannedTo(g, true, seen, 0, y)
    {
      var x := 0;
      while x < width
        invariant 0 <= x <= width
        invariant ComponentsState(g, height, minArea, Cells(visited), seen, components)
        invariant FirstsBefore(components, x, y) && ScannedTo(g, true, seen, x, y)
        invariant x == width ==> FirstsBefore(components, 0, y + 1) && ScannedTo(g, true, seen, 0, y + 1)
      {
        components, seen := ScanComponentCell(mask, visited, x, y, minArea, components, g, seen);
        x := x + 1;
      }
      y := y + 1;
    }
    ComponentsComplete(g, height, minArea, Cells(visited), seen, components);
  }

  // ----- Skin colour -----

  /** A colour's red, green and blue channels (`SKColor`, each 0 to 255). */
  datatype Color = Color(red: int, green: int, blue: int)

  /** The luma `Y` of `IsSkinColor`. */
  function Luma(c: Color): real
  {
    0.299 * c.red as real + 0.587 * c.green as real + 0.114 * c.blue as real
  }

  /** The red-difference chroma `Cr = (r - Y) · 0.713 + 128`. */
  function Cr(c: Color): real
  {
    (c.red as real - Luma(c)) * 0.713 + 128.0
  }

  /** The blue-difference chroma `Cb = (b - Y) · 0.564 + 128`. */
  function Cb(c: Color): real
  {
    (c.blue as real - Luma(c)) * 0.564 + 128.0
  }

  /** `IsSkinColor`: `Cr` within `[130, 185]` and `Cb` within `[80, 140]`, both ends included. */
  predicate IsSkinColor(c: Color)
  {
    130.0 <= Cr(c) <= 185.0 && 80.0 <= Cb(c) <= 140.0
  }

  /** A grey colour has `Cr = Cb = 128`, so it is never skin. */
  lemma GreyIsNotSkin(v: int)
    ensures Cr(Color(v, v, v)) == 128.0 && Cb(Color(v, v, v)) == 128.0
    ensures !IsSkinColor(Color(v, v, v))
  {
  }

  /** A skin colour has more red than its luma: `Cr >= 130` needs `r - Y >= 2 / 0.713`. */
  lemma SkinIsRedderThanLuma(c: Color)
    requires IsSkinColor(c)
    ensures c.red as real > Luma(c)
  {
  }

  // ----- Face rectangles -----

  /** The box `(minX, minY, maxX, maxY)` that `DetectFaceRectangles` grows over a component. */
  datatype Box = Box(minX: int, minY: int, maxX: int, maxY: int)

  /** A face candidate, the `SKRect(left, top, right, bottom)` the detector returns (integer corners). */
  datatype FaceRect = FaceRect(left: int, top: int, right: int, bottom: int)

  predicate InImage(p: Point, width: int, height: int)
  {
    0 <= p.x < width && 0 <= p.y < height
  }

  /** One step of the box loop: a bound moves only when the cell lies beyond it. */
  function Widen(b: Box, p: Point): Box
  {
    Box(if p.x < b.minX then p.x else b.minX,
        if p.y < b.minY then p.y else b.minY,
        if p.x > b.maxX then p.x else b.maxX,
        if p.y > b.maxY then p.y else b.maxY)
  }

  /** The box loop over `pts`, started from `(width, height, 0, 0)`. */
  function BoundsOf(pts: seq<Point>, width: int, height: int): Box
  {
    if |pts| == 0 then Box(width, height, 0, 0)
    else Widen(BoundsOf(pts[..|pts| - 1], width, height), pts[|pts| - 1])
  }

  /** `b` is the tightest box around `pts`: every cell lies in it and each of its sides touches a cell. */
  ghost predicate IsBoundingBox(b: Box, pts: seq<Point>)
  {
    (forall i :: 0 <= i < |pts| ==> b.minX <= pts[i].x <= b.maxX && b.minY <= pts[i].y <= b.maxY) &&
    (exists i :: 0 <= i < |pts| && pts[i].x == b.minX) &&
    (exists i :: 0 <= i < |pts| && pts[i].y == b.minY) &&
    (exists i :: 0 <= i < |pts| && pts[i].x == b.maxX) &&
    (exists i :: 0 <= i < |pts| && pts[i].y == b.maxY)
  }

  /**
   * For cells inside the image the box loop finds the bounding box: the start
   * `(width, height, 0, 0)` is beaten or matched by any cell of the image.
   */
  lemma {:induction false} BoundsOfIsBoundingBox(pts: seq<Point>, width: int, height: int)
    requires |pts| > 0
    requires forall i :: 0 <= i < |pts| ==> InImage(pts[i], width, height)
    ensures IsBoundingBox(BoundsOf(pts, width, height), pts)
  {
    var n := |pts| - 1;
    var last := pts[n];
    var b := BoundsOf(pts, width, height);
    if n == 0 {
      assert pts[..0] == [];
      assert BoundsOf(pts[..0], width, height) == Box(width, height, 0, 0);
      assert b == Widen(Box(width, height, 0, 0), last);
      assert pts[0] == last;
    } else {
      var prefix := pts[..n];
      BoundsOfIsBoundingBox(prefix, width, height);
      var c := BoundsOf(prefix, width, height);
      assert b == Widen(c, last);
      WidenBounds(c, last);
      forall i | 0 <= i < |pts|
        ensures b.minX <= pts[i].x <= b.maxX && b.minY <= pts[i].y <= b.maxY
      {
        if i < n {
          assert prefix[i] == pts[i];
        }
      }
      var i0 :| 0 <= i0 < n && prefix[i0].x == c.minX;
      var i1 :| 0 <= i1 < n && prefix[i1].y == c.minY;
      var i2 :| 0 <= i2 < n && prefix[i2].x == c.maxX;
      var i3 :| 0 <= i3 < n && prefix[i3].y == c.maxY;
      var j0 := if b.minX == last.x then n else i0;
      var j1 := if b.minY == last.y then n else i1;
      var j2 := if b.maxX == last.x then n else i2;
      var j3 := if b.maxY == last.y then n else i3;
      assert prefix[i0] == pts[i0] && prefix[i1] == pts[i1] && prefix[i2] == pts[i2] && prefix[i3] == pts[i3];
      assert pts[j0].x == b.minX && pts[j1].y == b.minY && pts[j2].x == b.maxX && pts[j3].y == b.maxY;
    }
  }

  /** Widening by `p` gives the least box around the old box and `p`. */
  lemma WidenBounds(c: Box, p: Point)
    ensures var b := Widen(c, p);
      b.minX <= c.minX && b.minX <= p.x && (b.minX == c.minX || b.minX == p.x) &&
      b.minY <= c.minY && b.minY <= p.y && (b.minY == c.minY || b.minY == p.y) &&
      b.maxX >= c.maxX && b.maxX >= p.x && (b.maxX == c.maxX || b.maxX == p.x) &&
      b.maxY >= c.maxY && b.maxY >= p.y && (b.maxY == c.maxY || b.maxY == p.y)
  {
  }

  /** The inner loop of `DetectFaceRectangles` over one component. */
  method ComponentBounds(comp: seq<Point>, width: int, height: int) returns (b: Box)
    ensures b == BoundsOf(comp, width, height)
  {
    var minX, minY, maxX, maxY := width, height, 0, 0;
    var i := 0;
    while i < |comp|
      invariant 0 <= i <= |comp|
      invariant Box(minX, minY, maxX, maxY) == BoundsOf(comp[..i], width, height)
    {
      var pt := comp[i];
      assert comp[..i + 1][..i] == comp[..i];
      if pt.x < minX { minX := pt.x; }
      if pt.y < minY { minY := pt.y; }
      if pt.x > maxX { maxX := pt.x; }
      if pt.y > maxY { maxY := pt.y; }
      i := i + 1;
    }
    assert comp[..i] == comp;
    b := Box(minX, minY, maxX, maxY);
  }

  /** The body of the outer box loop for one component: its box, grown by the margins and clamped. */
  method ComponentRect(comp: seq<Point>, width: int, height: int) returns (r: FaceRect)
    ensures r == RectOf(comp, width, height)
  {
    var b := ComponentBounds(comp, width, height);
    var marginX := Margin(b.maxX - b.minX);
    var marginY := Margin(b.maxY - b.minY);
    r := FaceRect(Max(0, b.minX - marginX), Max(0, b.minY - marginY),
                  Min(width - 1, b.maxX + marginX), Min(height - 1, b.maxY + marginY));
  }

  /** `(int)(extent * 0.1)`: the margin added on each side, a tenth of the extent truncated toward zero. */
  function Margin(extent: int): int
  {
    Truncate(extent as real * 0.1)
  }

  /** For a non-negative extent the margin is the integer tenth `extent / 10`. */
  lemma MarginIsTenth(extent: int)
    requires extent >= 0
    ensures Margin(extent) == extent / 10
  {
    var m := Margin(extent);
    assert m as real <= extent as real * 0.1 < m as real + 1.0;
    assert 10 * m <= extent < 10 * m + 10;
  }

  /** The rectangle for a box: each side pushed out by the margin, then clamped to the image. */
  function Expand(b: Box, width: int, height: int): FaceRect
  {
    var marginX := Margin(b.maxX - b.minX);
    var marginY := Margin(b.maxY - b.minY);
    FaceRect(Max(0, b.minX - marginX), Max(0, b.minY - marginY),
             Min(width - 1, b.maxX + marginX), Min(height - 1, b.maxY + marginY))
  }

  /**
   * A box inside the image grows into a rectangle that is still inside the
   * image, holds the box, and reaches no further than a tenth of the box's
   * extent past it on any side.
   */
  lemma ExpandCovers(b: Box, width: int, height: int)
    requires 0 <= b.minX <= b.maxX < width && 0 <= b.minY <= b.maxY < height
    ensures var r := Expand(b, width, height);
      0 <= r.left <= b.minX && b.maxX <= r.right < width &&
      0 <= r.top <= b.minY && b.maxY <= r.bottom < height &&
      b.minX - r.left <= (b.maxX - b.minX) / 10 && r.right - b.maxX <= (b.maxX - b.minX) / 10 &&
      b.minY - r.top <= (b.maxY - b.minY) / 10 && r.bottom - b.maxY <= (b.maxY - b.minY) / 10
  {
    MarginIsTenth(b.maxX - b.minX);
    MarginIsTenth(b.maxY - b.minY);
  }

  /**
   * The aspect test on `(float)dx / dy`: rejected below 0.5 or above 1.5. With
   * `dy == 0` the quotient is an infinity for `dx != 0` (rejected) and NaN for
   * `dx == 0`, which fails both comparisons and so passes.
   */
  predicate AspectRejected(dx: int, dy: int)
  {
    if dy == 0 then dx != 0 else dx as real / dy as real < 0.5 || dx as real / dy as real > 1.5
  }

  /** The size test: either side shorter than 60 pixels. */
  predicate SizeRejected(dx: int, dy: int)
  {
    dx < 60 || dy < 60
  }

  predicate Rejected(r: FaceRect)
  {
    AspectRejected(r.right - r.left, r.bottom - r.top) || SizeRejected(r.right - r.left, r.bottom - r.top)
  }

  /** A rectangle is kept exactly when both sides are at least 60 and the width is half to one and a half times the height. */
  lemma KeptIff(r: FaceRect)
    ensures !Rejected(r) <==>
      var dx, dy := r.right - r.left, r.bottom - r.top;
      dx >= 60 && dy >= 60 && dy <= 2 * dx && 2 * dx <= 3 * dy
  {
    var dx, dy := r.right - r.left, r.bottom - r.top;
    if dy > 0 {
      var q := dx as real / dy as real;
      assert q * dy as real == dx as real;
      assert q < 0.5 <==> 2 * dx < dy by { QuotientBelow(dx, dy, 1, 2); }
      assert q > 1.5 <==> 2 * dx > 3 * dy by { QuotientAbove(dx, dy, 3, 2); }
    }
  }

  /** `dx / dy < n / d` exactly when `d·dx < n·dy`, for positive `dy` and `d`. */
  lemma QuotientBelow(dx: int, dy: int, n: int, d: int)
    requires dy > 0 && d > 0
    ensures dx as real / dy as real < n as real / d as real <==> d * dx < n * dy
  {
    var q, t := dx as real / dy as real, n as real / d as real;
    assert q * dy as real == dx as real && t * d as real == n as real;
    assert (d * dx) as real == q * (d * dy) as real && (n * dy) as real == t * (d * dy) as real;
  }

  /** `dx / dy > n / d` exactly when `d·dx > n·dy`, for positive `dy` and `d`. */
  lemma QuotientAbove(dx: int, dy: int, n: int, d: int)
    requires dy > 0 && d > 0
    ensures dx as real / dy as real > n as real / d as real <==> d * dx > n * dy
  {
    var q, t := dx as real / dy as real, n as real / d as real;
    assert q * dy as real == dx as real && t * d as real == n as real;
    assert (d * dx) as real == q * (d * dy) as real && (n * dy) as real == t * (d * dy) as real;
  }

  /** The rectangle `DetectFaceRectangles` builds for one component. */
  function RectOf(comp: seq<Point>, width: int, height: int): FaceRect
  {
    Expand(BoundsOf(comp, width, height), width, height)
  }

  /** The rectangles of the kept components, in the order of the components. */
  function FaceRectsOf(components: seq<seq<Point>>, width: int, height: int): seq<FaceRect>
  {
    if |components| == 0 then []
    else
      var r := RectOf(components[|components| - 1], width, height);
      FaceRectsOf(components[..|components| - 1], width, height) + (if Rejected(r) then [] else [r])
  }

  /** Every returned rectangle is the kept rectangle of some component. */
  lemma {:induction false} FaceRectsOfSound(components: seq<seq<Point>>, width: int, height: int, r: FaceRect)
    requires r in FaceRectsOf(components, width, height)
    ensures exists k :: 0 <= k < |components| && r == RectOf(components[k], width, height) && !Rejected(r)
  {
    var n := |components| - 1;
    var prefix := components[..n];
    var last := RectOf(components[n], width, height);
    assert FaceRectsOf(components, width, height) ==
      FaceRectsOf(prefix, width, height) + (if Rejected(last) then [] else [last]);
    if r in FaceRectsOf(prefix, width, height) {
      FaceRectsOfSound(prefix, width, height, r);
      var k :| 0 <= k < n && r == RectOf(prefix[k], width, height) && !Rejected(r);
      assert prefix[k] == components[k];
    } else {
      assert r == RectOf(components[n], width, height) && !Rejected(r);
    }
  }

  /** The rectangle of every component that passes both tests is returned. */
  lemma {:induction false} FaceRectsOfComplete(components: seq<seq<Point>>, width: int, height: int, k: int)
    requires 0 <= k < |components| && !Rejected(RectOf(components[k], width, height))
    ensures RectOf(components[k], width, height) in FaceRectsOf(components, width, height)
  {
    var n := |components| - 1;
    var prefix := components[..n];
    var last := RectOf(components[n], width, height);
    assert FaceRectsOf(components, width, height) ==
      FaceRectsOf(prefix, width, height) + (if Rejected(last) then [] else [last]);
    if k < n {
      assert prefix[k] == components[k];
      FaceRectsOfComplete(prefix, width, height, k);
    }
  }

  /**
   * The rectangle of a component that lies inside the image holds every one
   * of its cells and lies inside the image itself.
   */
  lemma RectCoversComponent(comp: seq<Point>, width: int, height: int)
    requires |comp| > 0 && forall i :: 0 <= i < |comp| ==> InImage(comp[i], width, height)
    ensures var r := RectOf(comp, width, height);
      0 <= r.left && r.right < width && 0 <= r.top && r.bottom < height &&
      forall i :: 0 <= i < |comp| ==> r.left <= comp[i].x <= r.right && r.top <= comp[i].y <= r.bottom
  {
    var b := BoundsOf(comp, width, height);
    BoundsOfIsBoundingBox(comp, width, height);
    assert comp[0].x <= b.maxX && comp[0].y <= b.maxY;
    ExpandCovers(b, width, height);
  }

  /** Every cell of a listed component lies inside the grid. */
  lemma ComponentsInImage(g: Grid, height: int, components: seq<seq<Point>>, minArea: int)
    requires Rectangular(g, height) && AreComponents(g, components, minArea)
    ensures forall k, i :: 0 <= k < |components| && 0 <= i < |components[k]| ==>
      InImage(components[k][i], |g|, height)
  {
    forall k, i | 0 <= k < |components| && 0 <= i < |components[k]|
      ensures InImage(components[k][i], |g|, height)
    {
      var comp := components[k];
      assert IsComponent(g, comp, minArea);
      assert comp[i] in comp;
      ConnectedEndsOpen(g, true, comp[0], comp[i]);
    }
  }

  /** `r` lies inside a `width` × `height` image, has sides of at least 60 and a width half to one and a half times its height. */
  predicate FaceShaped(r: FaceRect, width: int, height: int)
  {
    0 <= r.left && r.right < width && 0 <= r.top && r.bottom < height &&
    r.right - r.left >= 60 && r.bottom - r.top >= 60 &&
    r.bottom - r.top <= 2 * (r.right - r.left) && 2 * (r.right - r.left) <= 3 * (r.bottom - r.top)
  }

  /** Every rectangle returned for the components of a grid is face shaped and inside the grid. */
  lemma FaceRectsShape(g: Grid, height: int, components: seq<seq<Point>>, minArea: int)
    requires Rectangular(g, height) && AreComponents(g, components, minArea)
    ensures forall r :: r in FaceRectsOf(components, |g|, height) ==> FaceShaped(r, |g|, height)
  {
    var width := |g|;
    ComponentsInImage(g, height, components, minArea);
    forall r | r in FaceRectsOf(components, width, height)
      ensures FaceShaped(r, width, height)
    {
      FaceRectsOfSound(components, width, height, r);
      var k :| 0 <= k < |components| && r == RectOf(components[k], width, height) && !Rejected(r);
      assert IsComponent(g, components[k], minArea);
      RectCoversComponent(components[k], width, height);
      KeptIff(r);
    }
  }

  /** The skin mask of an image: cell `(x, y)` is set when pixel `(x, y)` has a skin colour. */
  ghost function SkinGrid(pixels: array2<Color>): (g: Grid)
    reads pixels
    ensures |g| == pixels.Length0 && Rectangular(g, pixels.Length1)
    ensures forall x, y :: 0 <= x < pixels.Length0 && 0 <= y < pixels.Length1 ==> g[x][y] == IsSkinColor(pixels[x, y])
  {
    seq(pixels.Length0, x requires 0 <= x < pixels.Length0 reads pixels =>
      seq(pixels.Length1, y requires 0 <= y < pixels.Length1 reads pixels => IsSkinColor(pixels[x, y])))
  }

  /** Step 1 of `DetectFaceRectangles`: the skin mask, row by row. */
  method BuildSkinMask(pixels: array2<Color>) returns (skinMask: array2<bool>)
    ensures fresh(skinMask) && skinMask.Length0 == pixels.Length0 && skinMask.Length1 == pixels.Length1
    ensures Cells(skinMask) == SkinGrid(pixels)
  {
    var width, height := pixels.Length0, pixels.Length1;
    skinMask := new bool[width, height];
    var y := 0;
    while y < height
      invariant 0 <= y <= height
      invariant forall a, b :: 0 <= a < width && 0 <= b < y ==> skinMask[a, b] == IsSkinColor(pixels[a, b])
    {
      var x := 0;
      while x < width
        invariant 0 <= x <= width
        invariant forall a, b :: 0 <= a < width && 0 <= b < y ==> skinMask[a, b] == IsSkinColor(pixels[a, b])
        invariant forall a :: 0 <= a < x ==> skinMask[a, y] == IsSkinColor(pixels[a, y])
      {
        skinMask[x, y] := IsSkinColor(pixels[x, y]);
        x := x + 1;
      }
      y := y + 1;
    }
    GridsEqual(Cells(skinMask), SkinGrid(pixels), height);
  }

  /** The mask whose components `DetectFaceRectangles` boxes: skin, closed twice with a 5×5 kernel, holes up to 1000 cells filled. */
  ghost function FaceMask(pixels: array2<Color>): (g: Grid)
    reads pixels
    ensures |g| == pixels.Length0 && Rectangular(g, pixels.Length1)
  {
    var closed := Close(SkinGrid(pixels), pixels.Length1, Offset(5), 2);
    FillHolesOf(closed, pixels.Length1, 1000)
  }

  /** Steps 1 to 3 of `DetectFaceRectangles`: skin mask, closing, hole filling. */
  method BuildFaceMask(pixels: array2<Color>) returns (filledMask: array2<bool>)
    ensures filledMask.Length0 == pixels.Length0 && filledMask.Length1 == pixels.Length1
    ensures Cells(filledMask) == FaceMask(pixels)
  {
    var skinMask := BuildSkinMask(pixels);
    var closedMask := MorphologicalClosing(skinMask, 2, 5);
    filledMask := FillHoles(closedMask, 1000);
  }

  /** The rectangle loop of `DetectFaceRectangles`: one rectangle per component, the rejected ones skipped. */
  method FaceRectangles(components: seq<seq<Point>>, width: int, height: int) returns (faceRects: seq<FaceRect>)
    ensures faceRects == FaceRectsOf(components, width, height)
  {
    faceRects := [];
    var i := 0;
    while i < |components|
      invariant 0 <= i <= |components|
      invariant faceRects == FaceRectsOf(components[..i], width, height)
    {
      var r := ComponentRect(components[i], width, height);
      assert components[..i + 1][..i] == components[..i];
      if !Rejected(r) {
        faceRects := faceRects + [r];
      }
      i := i + 1;
    }
    assert components[..i] == components;
  }

  /**
   * `DetectFaceRectangles`: the kept rectangles of the components of at
   * least 1500 cells of the face mask. Every rectangle lies inside the image
   * and is face shaped.
   */
  method DetectFaceRectangles(pixels: array2<Color>) returns (faceRects: seq<FaceRect>)
    ensures exists components ::
      (AreComponents(FaceMask(pixels), components, 1500) &&
       faceRects == FaceRectsOf(components, pixels.Length0, pixels.Length1))
    ensures forall r :: r in faceRects ==> FaceShaped(r, pixels.Length0, pixels.Length1)
  {
    var width, height := pixels.Length0, pixels.Length1;
    var filledMask := BuildFaceMask(pixels);
    var components := FindConnectedComponents(filledMask, 1500);
    faceRects := FaceRectangles(components, width, height);
    FaceRectsShape(Cells(filledMask), height, components, 1500);
  }
}
