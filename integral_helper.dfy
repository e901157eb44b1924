/**
 * Summed-area tables over a grey-level image (`IntegralHelper.cs`).
 *
 * Arrays are indexed `[x, y]`: `Length0` is the image width and `Length1` its
 * height, as with `GetLength(0)` and `GetLength(1)` in the source.  Pixel
 * values and table cells are unbounded integers (the source uses `long`).
 */
module IntegralHelper {

  /** The pixel at `(i, j)`, with every pixel outside the image read as 0. */
  function Pixel(src: array2<int>, i: int, j: int): int
    reads src
  {
    if 0 <= i < src.Length0 && 0 <= j < src.Length1 then src[i, j] else 0
  }

  /** `src[x0, y] + … + src[x1 - 1, y]`. */
  function RowSum(src: array2<int>, y: int, x0: int, x1: int): int
    reads src
    requires 0 <= y < src.Length1 && 0 <= x0 && x1 <= src.Length0
    decreases x1 - x0
  {
    if x1 <= x0 then 0 else RowSum(src, y, x0, x1 - 1) + src[x1 - 1, y]
  }

  /** The brute-force sum of `src` over the block `[x0, x1) × [y0, y1)`. */
  function BlockSum(src: array2<int>, x0: int, x1: int, y0: int, y1: int): int
    reads src
    requires 0 <= x0 && x1 <= src.Length0 && 0 <= y0 && y1 <= src.Length1
    decreases y1 - y0
  {
    if y1 <= y0 then 0 else BlockSum(src, x0, x1, y0, y1 - 1) + RowSum(src, y1 - 1, x0, x1)
  }

  /** `integral` is the standard summed-area table of `src`. */
  predicate IsIntegralOf(integral: array2<int>, src: array2<int>)
    reads integral, src
  {
    integral.Length0 == src.Length0 && integral.Length1 == src.Length1 &&
    forall x, y :: 0 <= x < src.Length0 && 0 <= y < src.Length1 ==>
      integral[x, y] == BlockSum(src, 0, x + 1, 0, y + 1)
  }

  /** `ComputeStandardIntegralImage`: a running row sum plus the cell above. */
  method ComputeStandardIntegralImage(src: array2<int>) returns (integral: array2<int>)
    ensures fresh(integral)
    ensures IsIntegralOf(integral, src)
  {
    var width := src.Length0;
    var height := src.Length1;
    integral := new int[width, height];
    var y := 0;
    while y < height
      invariant 0 <= y <= height
      invariant forall i, j :: 0 <= i < width && 0 <= j < y ==>
        integral[i, j] == BlockSum(src, 0, i + 1, 0, j + 1)
    {
      var rowSum := 0;
      var x := 0;
      while x < width
        invariant 0 <= x <= width
        invariant rowSum == RowSum(src, y, 0, x)
        invariant forall i, j :: 0 <= i < width && 0 <= j < y ==>
          integral[i, j] == BlockSum(src, 0, i + 1, 0, j + 1)
        invariant forall i :: 0 <= i < x ==> integral[i, y] == BlockSum(src, 0, i + 1, 0, y + 1)
      {
        rowSum := rowSum + src[x, y];
        if y == 0 {
          integral[x, y] := rowSum;
        } else {
          integral[x, y] := integral[x, y - 1] + rowSum;
        }
        x := x + 1;
      }
      y := y + 1;
    }
  }

  /** The four lookups of `SumRectangle` are all inside `integral`. */
  predicate SumRectangleDefined(integral: array2<int>, x: int, y: int, width: int, height: int)
    reads integral
  {
    0 <= x + width - 1 < integral.Length0 && 0 <= y + height - 1 < integral.Length1 &&
    (x > 0 ==> x <= integral.Length0) && (y > 0 ==> y <= integral.Length1)
  }

  /** `SumRectangle`: the four-corner lookup `D - B - C + A`. */
  function SumRectangle(integral: array2<int>, x: int, y: int, width: int, height: int): int
    reads integral
    requires SumRectangleDefined(integral, x, y, width, height)
  {
    var x2 := x + width - 1;
    var y2 := y + height - 1;
    var a := if x > 0 && y > 0 then integral[x - 1, y - 1] else 0;
    var b := if y > 0 then integral[x2, y - 1] else 0;
    var c := if x > 0 then integral[x - 1, y2] else 0;
    var d := integral[x2, y2];
    d - b - c + a
  }

  lemma {:induction false} RowSumSplit(src: array2<int>, y: int, x0: int, x1: int, x2: int)
    requires 0 <= y < src.Length1 && 0 <= x0 <= x1 <= x2 <= src.Length0
    ensures RowSum(src, y, x0, x2) == RowSum(src, y, x0, x1) + RowSum(src, y, x1, x2)
    decreases x2
  {
    if x2 > x1 {
      RowSumSplit(src, y, x0, x1, x2 - 1);
    }
  }

  lemma {:induction false} BlockSumSplitX(src: array2<int>, x0: int, x1: int, x2: int, y0: int, y1: int)
    requires 0 <= x0 <= x1 <= x2 <= src.Length0 && 0 <= y0 && y1 <= src.Length1
    ensures BlockSum(src, x0, x2, y0, y1) == BlockSum(src, x0, x1, y0, y1) + BlockSum(src, x1, x2, y0, y1)
    decreases y1 - y0
  {
    if y1 > y0 {
      BlockSumSplitX(src, x0, x1, x2, y0, y1 - 1);
      RowSumSplit(src, y1 - 1, x0, x1, x2);
    }
  }

  lemma {:induction false} BlockSumSplitY(src: array2<int>, x0: int, x1: int, y0: int, y1: int, y2: int)
    requires 0 <= x0 && x1 <= src.Length0 && 0 <= y0 <= y1 <= y2 <= src.Length1
    ensures BlockSum(src, x0, x1, y0, y2) == BlockSum(src, x0, x1, y0, y1) + BlockSum(src, x0, x1, y1, y2)
    decreases y2
  {
    if y2 > y1 {
      BlockSumSplitY(src, x0, x1, y0, y1, y2 - 1);
    }
  }

  lemma {:induction false} BlockSumEmptyColumns(src: array2<int>, x: int, y0: int, y1: int)
    requires 0 <= x <= src.Length0 && 0 <= y0 && y1 <= src.Length1
    ensures BlockSum(src, x, x, y0, y1) == 0
    decreases y1 - y0
  {
    if y1 > y0 {
      BlockSumEmptyColumns(src, x, y0, y1 - 1);
    }
  }

  /**
   * Over a table built by `ComputeStandardIntegralImage`, `SumRectangle` of
   * an in-bounds rectangle is the brute-force sum of the source over it; the
   * lookups left of column 0 or above row 0 are the zeros the source puts there.
   */
  lemma SumRectangleIsBlockSum(integral: array2<int>, src: array2<int>, x: int, y: int, width: int, height: int)
    requires IsIntegralOf(integral, src)
    requires 0 <= x && 0 <= y && 1 <= width && 1 <= height
    requires x + width <= src.Length0 && y + height <= src.Length1
    ensures SumRectangleDefined(integral, x, y, width, height)
    ensures SumRectangle(integral, x, y, width, height) == BlockSum(src, x, x + width, y, y + height)
  {
    var x2, y2 := x + width, y + height;
    BlockSumSplitY(src, 0, x2, 0, y, y2);
    BlockSumSplitY(src, 0, x, 0, y, y2);
    BlockSumSplitX(src, 0, x, x2, y, y2);
    if x == 0 {
      BlockSumEmptyColumns(src, 0, 0, y2);
      BlockSumEmptyColumns(src, 0, 0, y);
      BlockSumEmptyColumns(src, 0, y, y2);
    }
  }

  /** An upright rectangle `(x, y, width, height)` of the image. */
  datatype Rect = Rect(x: int, y: int, width: int, height: int)

  /** `r` lies inside an image of the given size and is not empty. */
  predicate Inside(r: Rect, imageWidth: int, imageHeight: int)
  {
    0 <= r.x && 0 <= r.y && 1 <= r.width && 1 <= r.height &&
    r.x + r.width <= imageWidth && r.y + r.height <= imageHeight
  }

  /** The brute-force sum of `src` over a rectangle inside it. */
  function RectBlockSum(src: array2<int>, r: Rect): int
    reads src
    requires Inside(r, src.Length0, src.Length1)
  {
    BlockSum(src, r.x, r.x + r.width, r.y, r.y + r.height)
  }

  /** `SumRectangle` for a `Rect`: every lookup it makes is inside `integral`. */
  predicate RectDefined(integral: array2<int>, r: Rect)
    reads integral
  {
    SumRectangleDefined(integral, r.x, r.y, r.width, r.height)
  }

  function RectSum(integral: array2<int>, r: Rect): int
    reads integral
    requires RectDefined(integral, r)
  {
    SumRectangle(integral, r.x, r.y, r.width, r.height)
  }

  /** `SumRectangleIsBlockSum` for a `Rect`. */
  lemma RectSumIsBlockSum(integral: array2<int>, src: array2<int>, r: Rect)
    requires IsIntegralOf(integral, src) && Inside(r, src.Length0, src.Length1)
    ensures RectDefined(integral, r) && RectSum(integral, r) == RectBlockSum(src, r)
  {
    SumRectangleIsBlockSum(integral, src, r.x, r.y, r.width, r.height);
  }

  /**
   * Where rectangle sums are read from: a summed-area table (as the detectors
   * do) or the image itself (the brute-force reference).
   */
  datatype SumSource = Table(grid: array2<int>) | Image(grid: array2<int>)

  predicate SumDefined(source: SumSource, r: Rect)
    reads source.grid
  {
    match source
    case Table(integral) => RectDefined(integral, r)
    case Image(src) => Inside(r, src.Length0, src.Length1)
  }

  function Sum(source: SumSource, r: Rect): int
    reads source.grid
    requires SumDefined(source, r)
  {
    match source
    case Table(integral) => RectSum(integral, r)
    case Image(src) => RectBlockSum(src, r)
  }

  /** A table and its image give the same sum for every rectangle inside the image. */
  lemma SumOfTableIsSumOfImage(integral: array2<int>, src: array2<int>, r: Rect)
    requires IsIntegralOf(integral, src) && Inside(r, src.Length0, src.Length1)
    ensures SumDefined(Table(integral), r) && SumDefined(Image(src), r)
    ensures Sum(Table(integral), r) == Sum(Image(src), r)
  {
    RectSumIsBlockSum(integral, src, r);
  }

  // ----- The rotated (45°) table -----

  /** The cell `(x, y)` of `ComputeRotatedIntegralImage`, with 0 outside the image. */
  function TiltedAt(src: array2<int>, x: int, y: int): int
    reads src
    decreases if y < 0 then 0 else y + 1
  {
    if 0 <= x < src.Length0 && 0 <= y < src.Length1 then
      src[x, y] + TiltedAt(src, x - 1, y - 1) + TiltedAt(src, x + 1, y - 1) - TiltedAt(src, x, y - 2)
    else 0
  }

  /** `tilted` holds the recurrence of `ComputeRotatedIntegralImage` at every cell. */
  predicate IsTiltedOf(tilted: array2<int>, src: array2<int>)
    reads tilted, src
  {
    tilted.Length0 == src.Length0 && tilted.Length1 == src.Length1 &&
    forall x, y :: 0 <= x < src.Length0 && 0 <= y < src.Length1 ==> tilted[x, y] == TiltedAt(src, x, y)
  }

  /**
   * `ComputeRotatedIntegralImage`: `T[x,y] = f[x,y] + T[x-1,y-1] + T[x+1,y-1] - T[x,y-2]`,
   * every operand outside the image read as 0, filled row by row so that each
   * operand lies in an earlier row.
   */
  method ComputeRotatedIntegralImage(src: array2<int>) returns (tilted: array2<int>)
    ensures fresh(tilted)
    ensures IsTiltedOf(tilted, src)
  {
    var width := src.Length0;
    var height := src.Length1;
    tilted := new int[width, height];
    var y := 0;
    while y < height
      invariant 0 <= y <= height
      invariant forall i, j :: 0 <= i < width && 0 <= j < y ==> tilted[i, j] == TiltedAt(src, i, j)
    {
      FillTiltedRow(src, tilted, y);
      y := y + 1;
    }
  }

  /** One pass of the inner loop: row `y`, once the rows above it are done. */
  method FillTiltedRow(src: array2<int>, tilted: array2<int>, y: int)
    requires tilted != src && tilted.Length0 == src.Length0 && tilted.Length1 == src.Length1
    requires 0 <= y < src.Length1
    requires forall i, j :: 0 <= i < src.Length0 && 0 <= j < y ==> tilted[i, j] == TiltedAt(src, i, j)
    modifies tilted
    ensures forall i, j :: 0 <= i < src.Length0 && 0 <= j <= y ==> tilted[i, j] == TiltedAt(src, i, j)
  {
    var width := src.Length0;
    var x := 0;
    while x < width
      invariant 0 <= x <= width
      invariant forall i, j :: 0 <= i < width && 0 <= j < y ==> tilted[i, j] == TiltedAt(src, i, j)
      invariant forall i :: 0 <= i < x ==> tilted[i, y] == TiltedAt(src, i, y)
    {
      var fVal := src[x, y];
      var t1 := if x - 1 >= 0 && y - 1 >= 0 then tilted[x - 1, y - 1] else 0;
      var t2 := if x + 1 < width && y - 1 >= 0 then tilted[x + 1, y - 1] else 0;
      var t3 := if y - 2 >= 0 then tilted[x, y - 2] else 0;
      assert fVal + t1 + t2 - t3 == TiltedAt(src, x, y);
      tilted[x, y] := fVal + t1 + t2 - t3;
      x := x + 1;
    }
  }

  /** `GetValue`: the stored cell inside the table and 0 anywhere else. */
  function GetValue(table: array2<int>, x: int, y: int): int
    reads table
  {
    if x < 0 || y < 0 || x >= table.Length0 || y >= table.Length1 then 0 else table[x, y]
  }

  /** Reading a rotated table through `GetValue` yields the recurrence at every integer point. */
  lemma GetValueOfTilted(tilted: array2<int>, src: array2<int>, x: int, y: int)
    requires IsTiltedOf(tilted, src)
    ensures GetValue(tilted, x, y) == TiltedAt(src, x, y)
  {
  }

  /** `SumRotatedRectangle`: `p + s - q - r` over four corners read with `GetValue`. */
  function SumRotatedRectangle(table: array2<int>, x: int, y: int, width: int, height: int): int
    reads table
  {
    var p := GetValue(table, x, y);
    var q := GetValue(table, x + width, y + width);
    var r := GetValue(table, x - height, y + height);
    var s := GetValue(table, x + width - height, y + width + height);
    p + s - q - r
  }

  /**
   * On a rotated table, `SumRotatedRectangle` is defined for every integer
   * argument and combines the recurrence values at the corners
   * `(x, y)`, `(x + w, y + w)`, `(x - h, y + h)` and `(x + w - h, y + w + h)`.
   */
  lemma SumRotatedRectangleCorners(tilted: array2<int>, src: array2<int>, x: int, y: int, width: int, height: int)
    requires IsTiltedOf(tilted, src)
    ensures SumRotatedRectangle(tilted, x, y, width, height) ==
      TiltedAt(src, x, y) + TiltedAt(src, x + width - height, y + width + height)
      - TiltedAt(src, x + width, y + width) - TiltedAt(src, x - height, y + height)
  {
    GetValueOfTilted(tilted, src, x, y);
    GetValueOfTilted(tilted, src, x + width, y + width);
    GetValueOfTilted(tilted, src, x - height, y + height);
    GetValueOfTilted(tilted, src, x + width - height, y + width + height);
  }

  // ----- What the rotated recurrence adds up -----

  /** `Pixel(a, j) + Pixel(a + 2, j) + … `, `n` terms two columns apart. */
  function StepSum(src: array2<int>, j: int, a: int, n: nat): int
    reads src
  {
    if n == 0 then 0 else StepSum(src, j, a, n - 1) + Pixel(src, a + 2 * (n - 1), j)
  }

  /** Rows `0 … rows - 1` of the checkerboard cone whose apex is `(x, y)`. */
  function ParityConeRows(src: array2<int>, x: int, y: int, rows: nat): int
    reads src
    requires rows <= y + 1
  {
    if rows == 0 then 0
    else
      var j := rows - 1;
      ParityConeRows(src, x, y, rows - 1) + StepSum(src, j, x - (y - j), y - j + 1)
  }

  /**
   * The sum of `src[i, j]` over every `j <= y` and `|i - x| <= y - j` whose
   * `i + j` has the parity of `x + y`: the cells the recurrence reaches.
   */
  function ParityCone(src: array2<int>, x: int, y: nat): int
    reads src
  {
    ParityConeRows(src, x, y, y + 1)
  }

  lemma ParityConeRowsStep(src: array2<int>, x: int, y: int, rows: nat)
    requires y >= 2 && rows <= y - 1
    ensures ParityConeRows(src, x - 1, y - 1, rows) + ParityConeRows(src, x + 1, y - 1, rows)
      - ParityConeRows(src, x, y - 2, rows) == ParityConeRows(src, x, y, rows)
    decreases rows
  {
    if rows > 0 {
      ParityConeRowsStep(src, x, y, rows - 1);
      var j := rows - 1;
      var d := y - j;
      assert StepSum(src, j, x - d + 2, d) == StepSum(src, j, x - d + 2, d - 1) + Pixel(src, x + d, j);
    }
  }

  /**
   * Where the cone of `(x, y)` stays inside the image (`y <= x` and
   * `x + y < width`), the rotated table holds the sum of the pixels above
   * `(x, y)` within 45° that share its checkerboard colour.
   */
  lemma {:induction false} TiltedIsParityCone(src: array2<int>, x: int, y: nat)
    requires y <= x && x + y < src.Length0 && y < src.Length1
    ensures TiltedAt(src, x, y) == ParityCone(src, x, y)
    decreases y
  {
    if y == 0 {
      assert TiltedAt(src, x, y) == src[x, 0];
      assert StepSum(src, 0, x, 1) == StepSum(src, 0, x, 0) + Pixel(src, x, 0);
      assert ParityCone(src, x, 0) == ParityConeRows(src, x, 0, 1) == StepSum(src, 0, x, 1);
    } else if y == 1 {
      assert TiltedAt(src, x - 1, 0) == src[x - 1, 0];
      assert TiltedAt(src, x + 1, 0) == src[x + 1, 0];
      assert TiltedAt(src, x, y) == src[x, 1] + src[x - 1, 0] + src[x + 1, 0];
      assert StepSum(src, 0, x - 1, 2) == src[x - 1, 0] + src[x + 1, 0] by {
        assert StepSum(src, 0, x - 1, 1) == Pixel(src, x - 1, 0);
      }
      assert StepSum(src, 1, x, 1) == src[x, 1];
      assert ParityConeRows(src, x, 1, 1) == StepSum(src, 0, x - 1, 2);
      assert ParityCone(src, x, y) == ParityConeRows(src, x, 1, 2);
    } else {
      TiltedIsParityCone(src, x - 1, y - 1);
      TiltedIsParityCone(src, x + 1, y - 1);
      TiltedIsParityCone(src, x, y - 2);
      ParityConeRowsStep(src, x, y, y - 1);
      assert StepSum(src, y - 1, x - 1, 1) == Pixel(src, x - 1, y - 1);
      assert StepSum(src, y - 1, x + 1, 1) == Pixel(src, x + 1, y - 1);
      assert StepSum(src, y - 1, x - 1, 2) == Pixel(src, x - 1, y - 1) + Pixel(src, x + 1, y - 1);
      assert StepSum(src, y, x, 1) == src[x, y];
      assert ParityCone(src, x - 1, y - 1) == ParityConeRows(src, x - 1, y - 1, y);
      assert ParityCone(src, x + 1, y - 1) == ParityConeRows(src, x + 1, y - 1, y);
      assert ParityCone(src, x, y - 2) == ParityConeRows(src, x, y - 2, y - 1);
      assert ParityCone(src, x, y) == ParityConeRows(src, x, y, y + 1);
      assert ParityConeRows(src, x, y, y + 1) == ParityConeRows(src, x, y, y) + src[x, y];
      assert ParityConeRows(src, x, y, y) == ParityConeRows(src, x, y, y - 1) + StepSum(src, y - 1, x - 1, 2);
    }
  }

  /**
   * The recurrence misses pixels: with a single 1 at `(1, 0)` in a 3×2 image,
   * the cell `(1, 1)` directly below it holds 0, although `(1, 0)` lies in the
   * 45° triangle above `(1, 1)`.
   */
  lemma TiltedMissesPixelAbove(src: array2<int>)
    requires src.Length0 == 3 && src.Length1 == 2
    requires forall i, j :: 0 <= i < 3 && 0 <= j < 2 ==> src[i, j] == (if i == 1 && j == 0 then 1 else 0)
    ensures TiltedAt(src, 1, 1) == 0
    ensures TriangleAt(src, 1, 1) == 1
  {
    assert TiltedAt(src, 0, 0) == 0 && TiltedAt(src, 2, 0) == 0;
    assert TriangleAt(src, 0, 0) == 0 && TriangleAt(src, 2, 0) == 0;
  }

  // ----- The rotated table of Lienhart and Maydt -----

  /**
   * The rotated summed-area table of Lienhart and Maydt: the recurrence
   * also adds the pixel directly above, `f[x, y - 1]`.
   */
  function TriangleAt(src: array2<int>, x: int, y: int): int
    reads src
    decreases if y < 0 then 0 else y + 1
  {
    if 0 <= x < src.Length0 && 0 <= y < src.Length1 then
      src[x, y] + Pixel(src, x, y - 1)
      + TriangleAt(src, x - 1, y - 1) + TriangleAt(src, x + 1, y - 1) - TriangleAt(src, x, y - 2)
    else 0
  }

  /** `tilted` holds the corrected recurrence at every cell. */
  predicate IsTriangleTableOf(tilted: array2<int>, src: array2<int>)
    reads tilted, src
  {
    tilted.Length0 == src.Length0 && tilted.Length1 == src.Length1 &&
    forall x, y :: 0 <= x < src.Length0 && 0 <= y < src.Length1 ==> tilted[x, y] == TriangleAt(src, x, y)
  }

  /** The rotated table built with the corrected recurrence, in the source's loop order. */
  method ComputeTriangleIntegralImage(src: array2<int>) returns (tilted: array2<int>)
    ensures fresh(tilted)
    ensures IsTriangleTableOf(tilted, src)
  {
    var width := src.Length0;
    var height := src.Length1;
    tilted := new int[width, height];
    var y := 0;
    while y < height
      invariant 0 <= y <= height
      invariant forall i, j :: 0 <= i < width && 0 <= j < y ==> tilted[i, j] == TriangleAt(src, i, j)
    {
      FillTriangleRow(src, tilted, y);
      y := y + 1;
    }
  }

  /** One pass of the inner loop: row `y`, once the rows above it are done. */
  /** The recurrence at `(x, y)`, given the pixel above and the three earlier triangle sums. */
  lemma TriangleStep(src: array2<int>, x: int, y: int, above: int, t1: int, t2: int, t3: int)
    requires 0 <= x < src.Length0 && 0 <= y < src.Length1
    requires above == (if y - 1 >= 0 then src[x, y - 1] else 0)
    requires t1 == TriangleAt(src, x - 1, y - 1) && t2 == TriangleAt(src, x + 1, y - 1) && t3 == TriangleAt(src, x, y - 2)
    ensures src[x, y] + above + t1 + t2 - t3 == TriangleAt(src, x, y)
  {
    assert Pixel(src, x, y - 1) == above;
  }

  method FillTriangleRow(src: array2<int>, tilted: array2<int>, y: int)
    requires tilted != src && tilted.Length0 == src.Length0 && tilted.Length1 == src.Length1
    requires 0 <= y < src.Length1
    requires forall i, j :: 0 <= i < src.Length0 && 0 <= j < y ==> tilted[i, j] == TriangleAt(src, i, j)
    modifies tilted
    ensures forall i, j :: 0 <= i < src.Length0 && 0 <= j <= y ==> tilted[i, j] == TriangleAt(src, i, j)
  {
    var width := src.Length0;
    var x := 0;
    while x < width
      invariant 0 <= x <= width
      invariant forall i, j :: 0 <= i < width && 0 <= j < y ==> tilted[i, j] == TriangleAt(src, i, j)
      invariant forall i :: 0 <= i < x ==> tilted[i, y] == TriangleAt(src, i, y)
    {
      var fVal := src[x, y];
      var above := if y - 1 >= 0 then src[x, y - 1] else 0;
      var t1 := if x - 1 >= 0 && y - 1 >= 0 then tilted[x - 1, y - 1] else 0;
      var t2 := if x + 1 < width && y - 1 >= 0 then tilted[x + 1, y - 1] else 0;
      var t3 := if y - 2 >= 0 then tilted[x, y - 2] else 0;
      TriangleStep(src, x, y, above, t1, t2, t3);
      tilted[x, y] := fVal + above + t1 + t2 - t3;
      x := x + 1;
    }
  }

  /** `Pixel(a, j) + Pixel(a + 1, j) + …`, `n` consecutive terms. */
  function SpanSum(src: array2<int>, j: int, a: int, n: nat): int
    reads src
  {
    if n == 0 then 0 else SpanSum(src, j, a, n - 1) + Pixel(src, a + n - 1, j)
  }

  lemma {:induction false} SpanSumSplit(src: array2<int>, j: int, a: int, m: nat, n: nat)
    ensures SpanSum(src, j, a, m + n) == SpanSum(src, j, a, m) + SpanSum(src, j, a + m, n)
    decreases n
  {
    if n > 0 {
      SpanSumSplit(src, j, a, m, n - 1);
    }
  }

  /** Rows `0 … rows - 1` of the full 45° triangle whose apex is `(x, y)`. */
  function TriangleRows(src: array2<int>, x: int, y: int, rows: nat): int
    reads src
    requires rows <= y + 1
  {
    if rows == 0 then 0
    else
      var j := rows - 1;
      TriangleRows(src, x, y, rows - 1) + SpanSum(src, j, x - (y - j), 2 * (y - j) + 1)
  }

  /** The sum of `src[i, j]` over every `j <= y` with `|i - x| <= y - j`. */
  function Triangle(src: array2<int>, x: int, y: nat): int
    reads src
  {
    TriangleRows(src, x, y, y + 1)
  }

  lemma TriangleRowsStep(src: array2<int>, x: int, y: int, rows: nat)
    requires y >= 2 && rows <= y - 1
    ensures TriangleRows(src, x - 1, y - 1, rows) + TriangleRows(src, x + 1, y - 1, rows)
      - TriangleRows(src, x, y - 2, rows) == TriangleRows(src, x, y, rows)
    decreases rows
  {
    if rows > 0 {
      TriangleRowsStep(src, x, y, rows - 1);
      var j := rows - 1;
      var d := y - j;
      SpanSumSplit(src, j, x - d, 2, 2 * d - 1);
      SpanSumSplit(src, j, x - d, 2, 2 * d - 3);
    }
  }

  /**
   * With the corrected recurrence, inside the image's cone region every cell
   * holds the sum of ALL pixels in the 45° triangle above it.
   */
  lemma {:induction false} TriangleAtIsTriangle(src: array2<int>, x: int, y: nat)
    requires y <= x && x + y < src.Length0 && y < src.Length1
    ensures TriangleAt(src, x, y) == Triangle(src, x, y)
    decreases y
  {
    if y == 0 {
      assert TriangleAt(src, x, y) == src[x, 0];
      assert Triangle(src, x, 0) == TriangleRows(src, x, 0, 1) == SpanSum(src, 0, x, 1);
    } else if y == 1 {
      assert TriangleAt(src, x - 1, 0) == src[x - 1, 0];
      assert TriangleAt(src, x + 1, 0) == src[x + 1, 0];
      assert TriangleAt(src, x, y) == src[x, 1] + src[x, 0] + src[x - 1, 0] + src[x + 1, 0];
      assert SpanSum(src, 0, x - 1, 3) == src[x - 1, 0] + src[x, 0] + src[x + 1, 0] by {
        assert SpanSum(src, 0, x - 1, 1) == Pixel(src, x - 1, 0);
      }
      assert SpanSum(src, 1, x, 1) == src[x, 1];
      assert TriangleRows(src, x, 1, 1) == SpanSum(src, 0, x - 1, 3);
      assert Triangle(src, x, y) == TriangleRows(src, x, 1, 2);
    } else {
      TriangleAtIsTriangle(src, x - 1, y - 1);
      TriangleAtIsTriangle(src, x + 1, y - 1);
      TriangleAtIsTriangle(src, x, y - 2);
      TriangleRowsStep(src, x, y, y - 1);
      assert SpanSum(src, y - 1, x - 1, 1) == Pixel(src, x - 1, y - 1);
      assert SpanSum(src, y - 1, x + 1, 1) == Pixel(src, x + 1, y - 1);
      assert SpanSum(src, y - 1, x - 1, 3) == Pixel(src, x - 1, y - 1) + Pixel(src, x, y - 1) + Pixel(src, x + 1, y - 1) by {
        assert SpanSum(src, y - 1, x - 1, 2) == Pixel(src, x - 1, y - 1) + Pixel(src, x, y - 1);
      }
      assert SpanSum(src, y, x, 1) == src[x, y];
      assert Triangle(src, x - 1, y - 1) == TriangleRows(src, x - 1, y - 1, y);
      assert Triangle(src, x + 1, y - 1) == TriangleRows(src, x + 1, y - 1, y);
      assert Triangle(src, x, y - 2) == TriangleRows(src, x, y - 2, y - 1);
      assert Triangle(src, x, y) == TriangleRows(src, x, y, y + 1);
      assert TriangleRows(src, x, y, y + 1) == TriangleRows(src, x, y, y) + src[x, y];
      assert TriangleRows(src, x, y, y) == TriangleRows(src, x, y, y - 1) + SpanSum(src, y - 1, x - 1, 3);
    }
  }
}
