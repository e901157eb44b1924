/**
 * The Fisherface recognizer of `MLFaceLib/FisherFaces.cs`: the matrix helpers
 * of `MatrixOperations` and the structural steps of `FisherFaceRecognizer`
 * (input checks, mean image, centring, projection and nearest-neighbour
 * matching). Doubles are exact reals here.
 */
module FisherFaces {
  import opened Wrappers

  /** The exceptions the modelled code raises. */
  datatype Error =
    | VectorLengthMismatch   // "Matrix columns and vector length do not match."
    | NotSquare              // "Matrix must be square."
    | Singular               // "Matrix is singular or nearly singular."
    | NoImages               // "No images provided."
    | LabelCountMismatch     // "The number of images and labels must match."
    | ImageSizeMismatch      // "All images must have the same size."
    | ProbeSizeMismatch      // "Image size does not match training images."
    | IndexOutOfRange
    | NullReference
    | Overflow               // an array allocated with a negative length

  // ----- Matrices as values -----

  /** A matrix as its rows. */
  type Matrix = seq<seq<real>>

  /** `M` has `rows` rows of `cols` entries each. */
  predicate IsMatrix(M: Matrix, rows: int, cols: int)
  {
    |M| == rows && forall i :: 0 <= i < |M| ==> |M[i]| == cols
  }

  /** The entries of a `double[,]`, row `i` holding `a[i, 0..]`. */
  ghost function Entries(a: array2<real>): (M: Matrix)
    reads a
    ensures IsMatrix(M, a.Length0, a.Length1)
    ensures forall i, j :: 0 <= i < a.Length0 && 0 <= j < a.Length1 ==> M[i][j] == a[i, j]
  {
    seq(a.Length0, i requires 0 <= i < a.Length0 reads a =>
      seq(a.Length1, j requires 0 <= j < a.Length1 reads a => a[i, j]))
  }

  /** Two matrices of the same shape with the same entries are equal. */
  lemma SameMatrix(M: Matrix, N: Matrix, rows: int, cols: int)
    requires IsMatrix(M, rows, cols) && IsMatrix(N, rows, cols)
    requires forall i, j :: 0 <= i < rows && 0 <= j < cols ==> M[i][j] == N[i][j]
    ensures M == N
  {
    forall i | 0 <= i < rows
      ensures M[i] == N[i]
    {
      assert forall j :: 0 <= j < cols ==> M[i][j] == N[i][j];
    }
  }

  /** `Σ_{k < n} u[k]·v[k]`, summed from `k = 0` upward as the loops do. */
  function Dot(u: seq<real>, v: seq<real>, n: nat): real
    requires n <= |u| && n <= |v|
  {
    if n == 0 then 0.0 else Dot(u, v, n - 1) + u[n - 1] * v[n - 1]
  }

  /** Column `j` of `M`. */
  function Column(M: Matrix, j: int): (c: seq<real>)
    requires 0 <= j && forall i :: 0 <= i < |M| ==> j < |M[i]|
    ensures |c| == |M| && forall i :: 0 <= i < |M| ==> c[i] == M[i][j]
  {
    seq(|M|, i requires 0 <= i < |M| => M[i][j])
  }

  /** `A·B` for an `m×n` matrix `A` and a matrix `B` of at least `n` rows of `p` entries. */
  function Product(A: Matrix, B: Matrix, n: nat, p: nat): (C: Matrix)
    requires IsMatrix(A, |A|, n) && n <= |B| && forall k :: 0 <= k < |B| ==> |B[k]| == p
    ensures IsMatrix(C, |A|, p)
  {
    seq(|A|, i requires 0 <= i < |A| => seq(p, j requires 0 <= j < p => Dot(A[i], Column(B, j), n)))
  }

  /** The transpose of an `m×n` matrix. */
  function Transposed(A: Matrix, m: nat, n: nat): (T: Matrix)
    requires IsMatrix(A, m, n)
    ensures IsMatrix(T, n, m)
  {
    seq(n, j requires 0 <= j < n => seq(m, i requires 0 <= i < m => A[i][j]))
  }

  /** The `n×n` identity matrix. */
  function IdentityMatrix(n: nat): (I: Matrix)
    ensures IsMatrix(I, n, n)
  {
    seq(n, i => seq(n, j => if i == j then 1.0 else 0.0))
  }

  /** The product `M·v` of an `m×n` matrix and a vector of length `n`. */
  function Apply(M: Matrix, v: seq<real>, n: nat): (w: seq<real>)
    requires IsMatrix(M, |M|, n) && |v| == n
    ensures |w| == |M|
  {
    seq(|M|, i requires 0 <= i < |M| => Dot(M[i], v, n))
  }

  /** Every entry of `u` divided by `c`. */
  function Divided(u: seq<real>, c: real): (w: seq<real>)
    requires c != 0.0
    ensures |w| == |u|
  {
    seq(|u|, k requires 0 <= k < |u| => u[k] / c)
  }

  // ----- Facts about the dot product -----

  lemma {:induction false} DotSymmetric(u: seq<real>, v: seq<real>, n: nat)
    requires n <= |u| && n <= |v|
    ensures Dot(u, v, n) == Dot(v, u, n)
  {
    if n > 0 {
      DotSymmetric(u, v, n - 1);
    }
  }

  /** A dot product with a unit vector `e_j` picks entry `j` (or nothing when `j` is past `n`). */
  lemma {:induction false} DotUnit(u: seq<real>, e: seq<real>, n: nat, j: int)
    requires n <= |u| && n <= |e| && 0 <= j
    requires forall k :: 0 <= k < n ==> e[k] == if k == j then 1.0 else 0.0
    ensures Dot(u, e, n) == if j < n then u[j] else 0.0
  {
    if n > 0 {
      DotUnit(u, e, n - 1, j);
    }
  }

  lemma {:induction false} DotOfSquares(u: seq<real>, n: nat)
    requires n <= |u|
    ensures Dot(u, u, n) >= 0.0
  {
    if n > 0 {
      DotOfSquares(u, n - 1);
      assert u[n - 1] * u[n - 1] >= 0.0;
    }
  }

  /** Dividing one side by `c` divides the dot product by `c`. */
  lemma {:induction false} DotDividedLeft(u: seq<real>, v: seq<real>, n: nat, c: real)
    requires n <= |u| && n <= |v| && c != 0.0
    ensures Dot(Divided(u, c), v, n) == Dot(u, v, n) / c
  {
    if n > 0 {
      DotDividedLeft(u, v, n - 1, c);
      assert Divided(u, c)[n - 1] * v[n - 1] == (u[n - 1] * v[n - 1]) / c;
    }
  }

  /** The dot product is linear in its left side: `(u - f·w)·v = u·v - f·(w·v)`. */
  lemma {:induction false} DotCombinedLeft(u: seq<real>, w: seq<real>, e: seq<real>, v: seq<real>, n: nat, f: real)
    requires n <= |u| && n <= |w| && n <= |e| && n <= |v|
    requires forall k :: 0 <= k < n ==> e[k] == u[k] - f * w[k]
    ensures Dot(e, v, n) == Dot(u, v, n) - f * Dot(w, v, n)
  {
    if n > 0 {
      DotCombinedLeft(u, w, e, v, n - 1, f);
      assert e[n - 1] * v[n - 1] == u[n - 1] * v[n - 1] - f * (w[n - 1] * v[n - 1]);
    }
  }

  // ----- Products, transposes and identities -----

  /** `A·I = A`. */
  lemma ProductIdentityRight(A: Matrix, m: nat, n: nat)
    requires IsMatrix(A, m, n)
    ensures Product(A, IdentityMatrix(n), n, n) == A
  {
    var I := IdentityMatrix(n);
    forall i, j | 0 <= i < m && 0 <= j < n
      ensures Product(A, I, n, n)[i][j] == A[i][j]
    {
      DotUnit(A[i], Column(I, j), n, j);
    }
    SameMatrix(Product(A, I, n, n), A, m, n);
  }

  /** `I·A = A`. */
  lemma ProductIdentityLeft(A: Matrix, m: nat, n: nat)
    requires IsMatrix(A, m, n)
    ensures Product(IdentityMatrix(m), A, m, n) == A
  {
    var I := IdentityMatrix(m);
    forall i, j | 0 <= i < m && 0 <= j < n
      ensures Product(I, A, m, n)[i][j] == A[i][j]
    {
      DotSymmetric(I[i], Column(A, j), m);
      DotUnit(Column(A, j), I[i], m, i);
    }
    SameMatrix(Product(I, A, m, n), A, m, n);
  }

  /** Transposing twice gives back the matrix. */
  lemma TransposeTwice(A: Matrix, m: nat, n: nat)
    requires IsMatrix(A, m, n)
    ensures Transposed(Transposed(A, m, n), n, m) == A
  {
    SameMatrix(Transposed(Transposed(A, m, n), n, m), A, m, n);
  }

  /** `(A·B)ᵀ = Bᵀ·Aᵀ`. */
  lemma TransposeOfProduct(A: Matrix, B: Matrix, m: nat, n: nat, p: nat)
    requires IsMatrix(A, m, n) && IsMatrix(B, n, p)
    ensures Transposed(Product(A, B, n, p), m, p) == Product(Transposed(B, n, p), Transposed(A, m, n), n, m)
  {
    var At, Bt := Transposed(A, m, n), Transposed(B, n, p);
    forall j, i | 0 <= j < p && 0 <= i < m
      ensures Transposed(Product(A, B, n, p), m, p)[j][i] == Product(Bt, At, n, m)[j][i]
    {
      assert Bt[j] == Column(B, j);
      assert Column(At, i) == A[i];
      DotSymmetric(A[i], Column(B, j), n);
    }
    SameMatrix(Transposed(Product(A, B, n, p), m, p), Product(Bt, At, n, m), p, m);
  }

  /** `I·v = v`. */
  lemma ApplyIdentity(v: seq<real>)
    ensures Apply(IdentityMatrix(|v|), v, |v|) == v
  {
    var I := IdentityMatrix(|v|);
    forall i | 0 <= i < |v|
      ensures Apply(I, v, |v|)[i] == v[i]
    {
      DotSymmetric(I[i], v, |v|);
      DotUnit(v, I[i], |v|, i);
    }
  }

  /** `M·v` is the single column of `M` times the one-column matrix holding `v`. */
  lemma ApplyIsProduct(M: Matrix, v: seq<real>, n: nat)
    requires IsMatrix(M, |M|, n) && |v| == n
    ensures var V := seq(n, k requires 0 <= k < n => [v[k]]);
      forall i :: 0 <= i < |M| ==> Apply(M, v, n)[i] == Product(M, V, n, 1)[i][0]
  {
    var V := seq(n, k requires 0 <= k < n => [v[k]]);
    assert Column(V, 0) == v;
  }

  // ----- MatrixOperations -----

  /**
   * `Multiply(A, B)`: the `m×p` product of an `m×n` matrix and a `_×p`
   * matrix, summing `A[i, k]·B[k, j]` over `k < n`. The code never compares
   * `n` with the rows of `B`: with fewer rows it fails on the first read
   * past them, with more it ignores the rest.
   */
  method Multiply(A: array2<real>, B: array2<real>) returns (r: Result<array2<real>, Error>)
    ensures r.Failure? <==> A.Length0 > 0 && B.Length1 > 0 && A.Length1 > B.Length0
    ensures r.Failure? ==> r.error == IndexOutOfRange
    ensures r.Success? ==> fresh(r.value) && r.value.Length0 == A.Length0 && r.value.Length1 == B.Length1
    ensures r.Success? && A.Length1 <= B.Length0 ==>
      Entries(r.value) == Product(Entries(A), Entries(B), A.Length1, B.Length1)
  {
    var m, n, p := A.Length0, A.Length1, B.Length1;
    if m > 0 && p > 0 && n > B.Length0 {
      return Failure(IndexOutOfRange);
    }
    ghost var a, b := Entries(A), Entries(B);
    var result := new real[m, p]((_, _) => 0.0);
    for i := 0 to m
      invariant forall i', j' :: 0 <= i' < i && 0 <= j' < p ==> result[i', j'] == Dot(a[i'], Column(b, j'), n)
    {
      MultiplyRow(A, B, result, i);
    }
    if n <= B.Length0 {
      SameMatrix(Entries(result), Product(a, b, n, p), m, p);
    }
    return Success(result);
  }

  /** The middle loop of `Multiply`: row `i` of the product. */
  method MultiplyRow(A: array2<real>, B: array2<real>, result: array2<real>, i: int)
    requires result != A && result != B
    requires 0 <= i < A.Length0 && result.Length0 == A.Length0 && result.Length1 == B.Length1
    requires B.Length1 > 0 ==> A.Length1 <= B.Length0
    modifies result
    ensures forall j :: 0 <= j < B.Length1 ==> result[i, j] == Dot(Entries(A)[i], Column(Entries(B), j), A.Length1)
    ensures forall i', j :: 0 <= i' < result.Length0 && i' != i && 0 <= j < B.Length1 ==> result[i', j] == old(result[i', j])
  {
    for j := 0 to B.Length1
      invariant forall j' :: 0 <= j' < j ==> result[i, j'] == Dot(Entries(A)[i], Column(Entries(B), j'), A.Length1)
      invariant forall i', j' :: 0 <= i' < result.Length0 && i' != i && 0 <= j' < B.Length1 ==> result[i', j'] == old(result[i', j'])
    {
      result[i, j] := RowTimesColumn(A, B, i, j);
    }
  }

  /** The innermost loop of `Multiply`: `Σ_{k < n} A[i, k]·B[k, j]`. */
  method RowTimesColumn(A: array2<real>, B: array2<real>, i: int, j: int) returns (sum: real)
    requires 0 <= i < A.Length0 && 0 <= j < B.Length1 && A.Length1 <= B.Length0
    ensures sum == Dot(Entries(A)[i], Column(Entries(B), j), A.Length1)
  {
    ghost var a, b := Entries(A), Entries(B);
    sum := 0.0;
    for k := 0 to A.Length1
      invariant sum == Dot(a[i], Column(b, j), k)
    {
      sum := sum + A[i, k] * B[k, j];
    }
  }

  /** `Multiply(matrix, vector)`: fails on a length mismatch, otherwise the row dot products. */
  method MultiplyVector(matrix: array2<real>, vector: array<real>) returns (r: Result<array<real>, Error>)
    ensures r.Failure? <==> vector.Length != matrix.Length1
    ensures r.Failure? ==> r.error == VectorLengthMismatch
    ensures r.Success? ==> fresh(r.value) && r.value[..] == Apply(Entries(matrix), vector[..], matrix.Length1)
  {
    var m, n := matrix.Length0, matrix.Length1;
    if vector.Length != n {
      return Failure(VectorLengthMismatch);
    }
    ghost var M, v := Entries(matrix), vector[..];
    var result := new real[m](_ => 0.0);
    for i := 0 to m
      invariant forall i' :: 0 <= i' < i ==> result[i'] == Dot(M[i'], v, n)
    {
      var sum := 0.0;
      for j := 0 to n
        invariant sum == Dot(M[i], v, j)
      {
        sum := sum + matrix[i, j] * vector[j];
      }
      result[i] := sum;
    }
    return Success(result);
  }

  /** `Transpose(A)`: a fresh `n×m` matrix with `T[j, i] = A[i, j]`. */
  method Transpose(A: array2<real>) returns (T: array2<real>)
    ensures fresh(T) && T.Length0 == A.Length1 && T.Length1 == A.Length0
    ensures Entries(T) == Transposed(Entries(A), A.Length0, A.Length1)
  {
    var m, n := A.Length0, A.Length1;
    T := new real[n, m]((_, _) => 0.0);
    for i := 0 to m
      invariant forall i', j' :: 0 <= i' < i && 0 <= j' < n ==> T[j', i'] == A[i', j']
    {
      for j := 0 to n
        invariant forall i', j' :: 0 <= i' < i && 0 <= j' < n ==> T[j', i'] == A[i', j']
        invariant forall j' :: 0 <= j' < j ==> T[j', i] == A[i, j']
      {
        T[j, i] := A[i, j];
      }
    }
    SameMatrix(Entries(T), Transposed(Entries(A), m, n), n, m);
  }

  /** `Identity(n)`: a fresh zero `n×n` matrix with ones set on the diagonal. */
  method Identity(n: nat) returns (I: array2<real>)
    ensures fresh(I) && I.Length0 == n && I.Length1 == n
    ensures Entries(I) == IdentityMatrix(n)
  {
    I := new real[n, n]((_, _) => 0.0);
    for i := 0 to n
      invariant forall r, c :: 0 <= r < n && 0 <= c < n ==> I[r, c] == if r == c && r < i then 1.0 else 0.0
    {
      I[i, i] := 1.0;
    }
    SameMatrix(Entries(I), IdentityMatrix(n), n, n);
  }

  /** The loop of `Norm`: the sum of the squared entries, before its square root. */
  method SquaredNorm(v: array<real>) returns (sum: real)
    ensures sum == Dot(v[..], v[..], v.Length)
  {
    sum := 0.0;
    for i := 0 to v.Length
      invariant sum == Dot(v[..], v[..], i)
    {
      sum := sum + v[i] * v[i];
    }
  }

  /**
   * `Normalize(v)`, given `norm`, the square root `Norm` takes of the
   * squared norm: a norm above `1e-10` divides every entry by it in place;
   * otherwise the vector is left as it is.
   */
  method Normalize(v: array<real>, norm: real)
    requires norm >= 0.0 && norm * norm == Dot(v[..], v[..], v.Length)
    modifies v
    ensures norm > 0.0000000001 ==> v[..] == Divided(old(v[..]), norm)
    ensures norm <= 0.0000000001 ==> v[..] == old(v[..])
  {
    if norm > 0.0000000001 {
      ghost var u := v[..];
      for i := 0 to v.Length
        invariant forall k :: 0 <= k < i ==> v[k] == u[k] / norm
        invariant forall k :: i <= k < v.Length ==> v[k] == u[k]
      {
        v[i] := v[i] / norm;
      }
    }
  }

  /** A vector divided by its (non-zero) norm has norm 1. */
  lemma NormalizedIsUnit(u: seq<real>, norm: real)
    requires norm > 0.0 && norm * norm == Dot(u, u, |u|)
    ensures Dot(Divided(u, norm), Divided(u, norm), |u|) == 1.0
  {
    var d := Divided(u, norm);
    DotDividedLeft(u, d, |u|, norm);
    DotSymmetric(u, d, |u|);
    DotDividedLeft(u, u, |u|, norm);
    assert Dot(d, d, |u|) == (Dot(u, u, |u|) / norm) / norm;
    SquareOverItself(norm);
  }

  lemma SquareOverItself(x: real)
    requires x != 0.0
    ensures ((x * x) / x) / x == 1.0
  {
    assert (x * x) / x == x;
  }

  // ----- Gauss-Jordan inversion -----

  function AbsReal(x: real): real
  {
    if x < 0.0 then -x else x
  }

  /** Row `i` of `M` divided by `c`. */
  function ScaleRow(M: Matrix, i: int, c: real): (S: Matrix)
    requires 0 <= i < |M| && c != 0.0
    ensures |S| == |M| && forall k :: 0 <= k < |M| ==> |S[k]| == |M[k]|
  {
    M[i := Divided(M[i], c)]
  }

  /** The first `n` entries of `u - f·w`. */
  function Combined(u: seq<real>, w: seq<real>, f: real, n: nat): (e: seq<real>)
    requires n <= |u| && n <= |w|
    ensures |e| == n
  {
    seq(n, j requires 0 <= j < n => u[j] - f * w[j])
  }

  /** Every row `k != i` of `M` less `factors[k]` times row `i`. */
  function EliminateColumn(M: Matrix, i: int, factors: seq<real>, n: nat): (E: Matrix)
    requires IsMatrix(M, |M|, n) && 0 <= i < |M| && |factors| == |M|
    ensures IsMatrix(E, |M|, n)
  {
    seq(|M|, k requires 0 <= k < |M| => if k == i then M[k] else Combined(M[k], M[i], factors[k], n))
  }

  /** The multipliers of pivot step `i`: column `i` once row `i` is divided by the pivot. */
  function PivotFactors(T: Matrix, i: nat, n: nat): (f: seq<real>)
    requires IsMatrix(T, n, n) && i < n && T[i][i] != 0.0
    ensures |f| == n
  {
    Column(ScaleRow(T, i, T[i][i]), i)
  }

  /** The matrix being reduced after pivot step `i`. */
  function StageT(T: Matrix, i: nat, n: nat): (T': Matrix)
    requires IsMatrix(T, n, n) && i < n && T[i][i] != 0.0
    ensures IsMatrix(T', n, n)
  {
    EliminateColumn(ScaleRow(T, i, T[i][i]), i, PivotFactors(T, i, n), n)
  }

  /** The matrix becoming the inverse after pivot step `i`: the same row operations. */
  function StageR(T: Matrix, R: Matrix, i: nat, n: nat): (R': Matrix)
    requires IsMatrix(T, n, n) && IsMatrix(R, n, n) && i < n && T[i][i] != 0.0
    ensures IsMatrix(R', n, n)
  {
    EliminateColumn(ScaleRow(R, i, T[i][i]), i, PivotFactors(T, i, n), n)
  }

  /**
   * The Gauss-Jordan loop of `Inverse` from pivot `i` on: `T` is the matrix
   * being reduced and `R` the matrix that becomes the inverse. A pivot
   * `T[i, i]` of magnitude below `1e-10` fails; there is no row exchange.
   */
  function GaussJordan(T: Matrix, R: Matrix, i: nat, n: nat): (r: Result<Matrix, Error>)
    requires IsMatrix(T, n, n) && IsMatrix(R, n, n) && i <= n
    ensures r.Success? ==> IsMatrix(r.value, n, n)
    decreases n - i
  {
    if i == n then Success(R)
    else if AbsReal(T[i][i]) < 0.0000000001 then Failure(Singular)
    else GaussJordan(StageT(T, i, n), StageR(T, R, i, n), i + 1, n)
  }

  /** What `Inverse` computes for a `rows×cols` matrix. */
  function InverseOf(A: Matrix, rows: nat, cols: nat): (r: Result<Matrix, Error>)
    requires IsMatrix(A, rows, cols)
    ensures r.Success? ==> rows == cols && IsMatrix(r.value, rows, rows)
  {
    if rows != cols then Failure(NotSquare) else GaussJordan(A, IdentityMatrix(rows), 0, rows)
  }

  /** Columns `0..i` of `T` are those of the identity. */
  ghost predicate UnitColumns(T: Matrix, i: int, n: nat)
    requires IsMatrix(T, n, n) && i <= n
  {
    forall r, c :: 0 <= r < n && 0 <= c < i ==> T[r][c] == if r == c then 1.0 else 0.0
  }

  /** One pivot step turns column `i` into a unit column and keeps the earlier ones. */
  lemma StageClearsColumn(T: Matrix, i: nat, n: nat)
    requires IsMatrix(T, n, n) && i < n && T[i][i] != 0.0 && UnitColumns(T, i, n)
    ensures UnitColumns(StageT(T, i, n), i + 1, n)
  {
    forall r, c | 0 <= r < n && 0 <= c < i + 1
      ensures StageT(T, i, n)[r][c] == if r == c then 1.0 else 0.0
    {
      ClearedEntry(T, i, n, r, c);
    }
  }

  /** Entry `(r, c)` of `StageClearsColumn`. */
  lemma ClearedEntry(T: Matrix, i: nat, n: nat, r: int, c: int)
    requires IsMatrix(T, n, n) && i < n && T[i][i] != 0.0 && UnitColumns(T, i, n)
    requires 0 <= r < n && 0 <= c <= i
    ensures StageT(T, i, n)[r][c] == if r == c then 1.0 else 0.0
  {
    var pivot := T[i][i];
    var f := PivotFactors(T, i, n);
    var x := StageT(T, i, n)[r][c];
    var y := T[i][c] / pivot;
    if c < i {
      assert T[i][c] == 0.0;
    } else {
      DividedBySelf(pivot);
    }
    if r == i {
      assert x == y;
    } else {
      assert f[r] == T[r][i];
      assert x == T[r][c] - f[r] * y;
    }
  }

  lemma DividedBySelf(x: real)
    requires x != 0.0
    ensures x / x == 1.0
  {
  }

  /** One pivot step keeps `R·A = T`: both sides see the same row operations. */
  lemma StageKeepsProduct(A: Matrix, T: Matrix, R: Matrix, i: nat, n: nat)
    requires IsMatrix(A, n, n) && IsMatrix(T, n, n) && IsMatrix(R, n, n) && i < n && T[i][i] != 0.0
    requires Product(R, A, n, n) == T
    ensures Product(StageR(T, R, i, n), A, n, n) == StageT(T, i, n)
  {
    ScalingKeepsProduct(A, T, R, i, n, T[i][i]);
    EliminationKeepsProduct(A, ScaleRow(T, i, T[i][i]), ScaleRow(R, i, T[i][i]), i, PivotFactors(T, i, n), n);
  }

  /** Dividing row `i` of `R` and of `T` by the same `c` keeps `R·A = T`. */
  lemma ScalingKeepsProduct(A: Matrix, T: Matrix, R: Matrix, i: nat, n: nat, c: real)
    requires IsMatrix(A, n, n) && IsMatrix(T, n, n) && IsMatrix(R, n, n) && i < n && c != 0.0
    requires Product(R, A, n, n) == T
    ensures Product(ScaleRow(R, i, c), A, n, n) == ScaleRow(T, i, c)
  {
    forall k, j | 0 <= k < n && 0 <= j < n
      ensures Product(ScaleRow(R, i, c), A, n, n)[k][j] == ScaleRow(T, i, c)[k][j]
    {
      ScaledEntry(A, T, R, i, n, c, k, j);
    }
    SameMatrix(Product(ScaleRow(R, i, c), A, n, n), ScaleRow(T, i, c), n, n);
  }

  /** Entry `(k, j)` of `ScalingKeepsProduct`. */
  lemma ScaledEntry(A: Matrix, T: Matrix, R: Matrix, i: nat, n: nat, c: real, k: int, j: int)
    requires IsMatrix(A, n, n) && IsMatrix(T, n, n) && IsMatrix(R, n, n) && i < n && c != 0.0
    requires Product(R, A, n, n) == T && 0 <= k < n && 0 <= j < n
    ensures Product(ScaleRow(R, i, c), A, n, n)[k][j] == ScaleRow(T, i, c)[k][j]
  {
    var col := Column(A, j);
    var M := ScaleRow(R, i, c);
    assert Product(M, A, n, n)[k][j] == Dot(M[k], col, n);
    assert T[k][j] == Dot(R[k], col, n);
    if k == i {
      DotDividedLeft(R[i], col, n, c);
      assert M[i] == Divided(R[i], c);
      assert ScaleRow(T, i, c)[i] == Divided(T[i], c);
    } else {
      assert M[k] == R[k];
    }
  }

  /** Taking `factors[k]` times row `i` from every other row `k` of `M` and of `S` keeps `M·A = S`. */
  lemma EliminationKeepsProduct(A: Matrix, S: Matrix, M: Matrix, i: nat, factors: seq<real>, n: nat)
    requires IsMatrix(A, n, n) && IsMatrix(S, n, n) && IsMatrix(M, n, n) && i < n && |factors| == n
    requires Product(M, A, n, n) == S
    ensures Product(EliminateColumn(M, i, factors, n), A, n, n) == EliminateColumn(S, i, factors, n)
  {
    forall k, j | 0 <= k < n && 0 <= j < n
      ensures Product(EliminateColumn(M, i, factors, n), A, n, n)[k][j] == EliminateColumn(S, i, factors, n)[k][j]
    {
      EliminatedProductEntry(A, S, M, i, factors, n, k, j);
    }
    SameMatrix(Product(EliminateColumn(M, i, factors, n), A, n, n), EliminateColumn(S, i, factors, n), n, n);
  }

  /** Entry `(k, j)` of `EliminationKeepsProduct`. */
  lemma EliminatedProductEntry(A: Matrix, S: Matrix, M: Matrix, i: nat, factors: seq<real>, n: nat, k: int, j: int)
    requires IsMatrix(A, n, n) && IsMatrix(S, n, n) && IsMatrix(M, n, n) && i < n && |factors| == n
    requires Product(M, A, n, n) == S && 0 <= k < n && 0 <= j < n
    ensures Product(EliminateColumn(M, i, factors, n), A, n, n)[k][j] == EliminateColumn(S, i, factors, n)[k][j]
  {
    var col := Column(A, j);
    var E := EliminateColumn(M, i, factors, n);
    assert Product(E, A, n, n)[k][j] == Dot(E[k], col, n);
    assert S[k][j] == Dot(M[k], col, n) && S[i][j] == Dot(M[i], col, n);
    if k == i {
      assert E[i] == M[i];
      EliminatedEntry(S, i, factors, n, i, j);
    } else {
      DotEliminatedRow(M, i, factors, n, k, col);
      EliminatedEntryOf(S, i, factors, n, k, j, Dot(M[k], col, n), Dot(M[i], col, n));
    }
  }

  /** Dotted with `col`, an eliminated row `k != i` is row `k` less its factor times row `i`. */
  lemma DotEliminatedRow(M: Matrix, i: int, factors: seq<real>, n: nat, k: int, col: seq<real>)
    requires IsMatrix(M, |M|, n) && 0 <= i < |M| && |factors| == |M| && 0 <= k < |M| && k != i && |col| == n
    ensures Dot(EliminateColumn(M, i, factors, n)[k], col, n) == Dot(M[k], col, n) - factors[k] * Dot(M[i], col, n)
  {
    assert EliminateColumn(M, i, factors, n)[k] == Combined(M[k], M[i], factors[k], n);
    DotCombined(M[k], M[i], factors[k], col, n);
  }

  /** `DotCombinedLeft` for the row `Combined(u, w, f, n)`. */
  lemma DotCombined(u: seq<real>, w: seq<real>, f: real, v: seq<real>, n: nat)
    requires n <= |u| && n <= |w| && n <= |v|
    ensures Dot(Combined(u, w, f, n), v, n) == Dot(u, v, n) - f * Dot(w, v, n)
  {
    DotCombinedLeft(u, w, Combined(u, w, f, n), v, n, f);
  }

  /** Entry `[k, j]`, `k != i`, of `EliminateColumn`, given `x = M[k][j]` and `y = M[i][j]`. */
  lemma EliminatedEntryOf(M: Matrix, i: int, factors: seq<real>, n: nat, k: int, j: int, x: real, y: real)
    requires IsMatrix(M, |M|, n) && 0 <= i < |M| && |factors| == |M| && 0 <= k < |M| && k != i && 0 <= j < n
    requires x == M[k][j] && y == M[i][j]
    ensures EliminateColumn(M, i, factors, n)[k][j] == x - factors[k] * y
  {
    EliminatedEntry(M, i, factors, n, k, j);
  }

  lemma EliminatedEntry(M: Matrix, i: int, factors: seq<real>, n: nat, k: int, j: int)
    requires IsMatrix(M, |M|, n) && 0 <= i < |M| && |factors| == |M| && 0 <= k < |M| && 0 <= j < n
    ensures EliminateColumn(M, i, factors, n)[k][j] == if k == i then M[k][j] else M[k][j] - factors[k] * M[i][j]
  {
  }

  /** A fully reduced matrix is the identity. */
  lemma UnitColumnsIdentity(T: Matrix, n: nat)
    requires IsMatrix(T, n, n) && UnitColumns(T, n, n)
    ensures T == IdentityMatrix(n)
  {
    SameMatrix(T, IdentityMatrix(n), n, n);
  }

  lemma {:induction false} GaussJordanLeftInverse(A: Matrix, T: Matrix, R: Matrix, i: nat, n: nat)
    requires IsMatrix(A, n, n) && IsMatrix(T, n, n) && IsMatrix(R, n, n) && i <= n
    requires Product(R, A, n, n) == T && UnitColumns(T, i, n)
    requires GaussJordan(T, R, i, n).Success?
    ensures Product(GaussJordan(T, R, i, n).value, A, n, n) == IdentityMatrix(n)
    decreases n - i
  {
    if i == n {
      UnitColumnsIdentity(T, n);
    } else {
      StageClearsColumn(T, i, n);
      StageKeepsProduct(A, T, R, i, n);
      GaussJordanLeftInverse(A, StageT(T, i, n), StageR(T, R, i, n), i + 1, n);
    }
  }

  /** When `Inverse` succeeds its result `R` is a left inverse: `R·A = I`. */
  lemma InverseIsLeftInverse(A: Matrix, n: nat)
    requires IsMatrix(A, n, n) && InverseOf(A, n, n).Success?
    ensures Product(InverseOf(A, n, n).value, A, n, n) == IdentityMatrix(n)
  {
    ProductIdentityLeft(A, n, n);
    GaussJordanLeftInverse(A, A, IdentityMatrix(n), 0, n);
  }

  /** Only square matrices are inverted. */
  lemma InverseNeedsSquare(A: Matrix, rows: nat, cols: nat)
    requires IsMatrix(A, rows, cols)
    ensures InverseOf(A, rows, cols).Failure? && InverseOf(A, rows, cols).error == NotSquare <==> rows != cols
  {
    if rows == cols {
      GaussJordanError(A, IdentityMatrix(rows), 0, rows);
    }
  }

  /** The Gauss-Jordan loop only ever fails with `Singular`. */
  lemma {:induction false} GaussJordanError(T: Matrix, R: Matrix, i: nat, n: nat)
    requires IsMatrix(T, n, n) && IsMatrix(R, n, n) && i <= n
    ensures GaussJordan(T, R, i, n).Failure? ==> GaussJordan(T, R, i, n).error == Singular
    decreases n - i
  {
    if i < n && AbsReal(T[i][i]) >= 0.0000000001 {
      GaussJordanError(StageT(T, i, n), StageR(T, R, i, n), i + 1, n);
    }
  }

  /** The identity is its own inverse. */
  lemma InverseOfIdentity(n: nat)
    ensures InverseOf(IdentityMatrix(n), n, n) == Success(IdentityMatrix(n))
  {
    GaussJordanOnIdentity(0, n);
  }

  lemma {:induction false} GaussJordanOnIdentity(i: nat, n: nat)
    requires i <= n
    ensures GaussJordan(IdentityMatrix(n), IdentityMatrix(n), i, n) == Success(IdentityMatrix(n))
    decreases n - i
  {
    if i < n {
      var I := IdentityMatrix(n);
      SameMatrix(ScaleRow(I, i, 1.0), I, n, n);
      SameMatrix(StageT(I, i, n), I, n, n);
      SameMatrix(StageR(I, I, i, n), I, n, n);
      GaussJordanOnIdentity(i + 1, n);
    }
  }

  /**
   * Without row exchanges a zero leading pivot fails even on an invertible
   * matrix: the swap `[[0, 1], [1, 0]]` is its own inverse, yet `Inverse`
   * reports it singular.
   */
  lemma SwapIsRejected()
    ensures var P := [[0.0, 1.0], [1.0, 0.0]];
      Product(P, P, 2, 2) == IdentityMatrix(2) && InverseOf(P, 2, 2) == Failure(Singular)
  {
    var P := [[0.0, 1.0], [1.0, 0.0]];
    assert Column(P, 0) == [0.0, 1.0] && Column(P, 1) == [1.0, 0.0];
    assert Dot(P[0], [0.0, 1.0], 2) == 1.0 && Dot(P[0], [1.0, 0.0], 2) == 0.0;
    assert Dot(P[1], [0.0, 1.0], 2) == 0.0 && Dot(P[1], [1.0, 0.0], 2) == 1.0;
    SameMatrix(Product(P, P, 2, 2), IdentityMatrix(2), 2, 2);
  }

  /** Row `i` of `temp` and of `result` divided by the pivot, entry by entry in one loop. */
  method ScalePivotRow(temp: array2<real>, result: array2<real>, i: int, pivot: real)
    requires temp != result && temp.Length0 == temp.Length1 == result.Length0 == result.Length1
    requires 0 <= i < temp.Length0 && pivot != 0.0
    modifies temp, result
    ensures Entries(temp) == ScaleRow(old(Entries(temp)), i, pivot)
    ensures Entries(result) == ScaleRow(old(Entries(result)), i, pivot)
  {
    var n := temp.Length0;
    ghost var T, R := Entries(temp), Entries(result);
    for j := 0 to n
      invariant forall r, c :: 0 <= r < n && 0 <= c < n ==>
        temp[r, c] == (if r == i && c < j then T[r][c] / pivot else T[r][c]) &&
        result[r, c] == (if r == i && c < j then R[r][c] / pivot else R[r][c])
    {
      temp[i, j] := temp[i, j] / pivot;
      result[i, j] := result[i, j] / pivot;
    }
    SameMatrix(Entries(temp), ScaleRow(T, i, pivot), n, n);
    SameMatrix(Entries(result), ScaleRow(R, i, pivot), n, n);
  }

  /** A matrix whose rows other than `i` are those of `M` less `factors[r]` times row `i` is `EliminateColumn(M, i, factors, n)`. */
  lemma EliminatedEntries(E: Matrix, M: Matrix, i: int, factors: seq<real>, n: nat)
    requires IsMatrix(E, n, n) && IsMatrix(M, n, n) && 0 <= i < n && |factors| == n
    requires forall r, c :: 0 <= r < n && 0 <= c < n ==>
      E[r][c] == if r != i then M[r][c] - factors[r] * M[i][c] else M[r][c]
    ensures E == EliminateColumn(M, i, factors, n)
  {
    SameMatrix(E, EliminateColumn(M, i, factors, n), n, n);
  }

  /** Row `k` of `temp` and of `result` less `factor` times row `i`, entry by entry in one loop. */
  method EliminateRow(temp: array2<real>, result: array2<real>, i: int, k: int, factor: real)
    requires temp != result && temp.Length0 == temp.Length1 == result.Length0 == result.Length1
    requires 0 <= i < temp.Length0 && 0 <= k < temp.Length0 && k != i
    modifies temp, result
    ensures forall r, c :: 0 <= r < temp.Length0 && 0 <= c < temp.Length0 ==>
      temp[r, c] == (if r == k then old(temp[r, c]) - factor * old(temp[i, c]) else old(temp[r, c])) &&
      result[r, c] == (if r == k then old(result[r, c]) - factor * old(result[i, c]) else old(result[r, c]))
  {
    var n := temp.Length0;
    for j := 0 to n
      invariant forall r, c :: 0 <= r < n && 0 <= c < n ==>
        temp[r, c] == (if r == k && c < j then old(temp[r, c]) - factor * old(temp[i, c]) else old(temp[r, c])) &&
        result[r, c] == (if r == k && c < j then old(result[r, c]) - factor * old(result[i, c]) else old(result[r, c]))
    {
      temp[k, j] := temp[k, j] - factor * temp[i, j];
      result[k, j] := result[k, j] - factor * result[i, j];
    }
  }

  /** Every other row `k` of `temp` and `result` less `temp[k, i]` times row `i`. */
  method EliminatePivotColumn(temp: array2<real>, result: array2<real>, i: int)
    requires temp != result && temp.Length0 == temp.Length1 == result.Length0 == result.Length1
    requires 0 <= i < temp.Length0
    modifies temp, result
    ensures var S := old(Entries(temp));
      Entries(temp) == EliminateColumn(S, i, Column(S, i), temp.Length0) &&
      Entries(result) == EliminateColumn(old(Entries(result)), i, Column(S, i), temp.Length0)
  {
    var n := temp.Length0;
    ghost var T, R := Entries(temp), Entries(result);
    ghost var f := Column(T, i);
    for k := 0 to n
      invariant forall r, c :: 0 <= r < n && 0 <= c < n ==>
        temp[r, c] == (if r < k && r != i then T[r][c] - f[r] * T[i][c] else T[r][c]) &&
        result[r, c] == (if r < k && r != i then R[r][c] - f[r] * R[i][c] else R[r][c])
    {
      if k != i {
        EliminateRow(temp, result, i, k, temp[k, i]);
      }
    }
    EliminatedEntries(Entries(temp), T, i, f, n);
    EliminatedEntries(Entries(result), R, i, f, n);
  }

  /**
   * `Inverse(A)`: fails on a non-square matrix, otherwise runs Gauss-Jordan
   * elimination on a copy of `A` beside an identity that becomes the result.
   */
  method Inverse(A: array2<real>) returns (r: Result<array2<real>, Error>)
    ensures r.Failure? <==> InverseOf(Entries(A), A.Length0, A.Length1).Failure?
    ensures r.Failure? ==> r.error == InverseOf(Entries(A), A.Length0, A.Length1).error
    ensures r.Success? ==> fresh(r.value) && Entries(r.value) == InverseOf(Entries(A), A.Length0, A.Length1).value
  {
    var n := A.Length0;
    if n != A.Length1 {
      return Failure(NotSquare);
    }
    ghost var a := Entries(A);
    var result := Identity(n);
    var temp := CopyOf(A);
    for i := 0 to n
      invariant fresh(temp) && fresh(result) && temp != result
      invariant GaussJordan(Entries(temp), Entries(result), i, n) == InverseOf(a, n, n)
    {
      var pivot := temp[i, i];
      if AbsReal(pivot) < 0.0000000001 {
        return Failure(Singular);
      }
      PivotStep(temp, result, i);
    }
    return Success(result);
  }

  /** The working copy `Inverse` eliminates in. */
  method CopyOf(A: array2<real>) returns (c: array2<real>)
    ensures fresh(c) && c.Length0 == A.Length0 && c.Length1 == A.Length1 && Entries(c) == Entries(A)
  {
    c := new real[A.Length0, A.Length1]((i, j) reads A => if 0 <= i < A.Length0 && 0 <= j < A.Length1 then A[i, j] else 0.0);
    SameMatrix(Entries(c), Entries(A), A.Length0, A.Length1);
  }

  /** Pivot step `i` of `Inverse`: scale row `i` by its pivot, then clear column `i` elsewhere. */
  method PivotStep(temp: array2<real>, result: array2<real>, i: int)
    requires temp != result && temp.Length0 == temp.Length1 == result.Length0 == result.Length1
    requires 0 <= i < temp.Length0 && temp[i, i] != 0.0
    modifies temp, result
    ensures Entries(temp) == StageT(old(Entries(temp)), i, temp.Length0)
    ensures Entries(result) == StageR(old(Entries(temp)), old(Entries(result)), i, temp.Length0)
  {
    ScalePivotRow(temp, result, i, temp[i, i]);
    EliminatePivotColumn(temp, result, i);
  }

  // ----- FisherFaceRecognizer -----

  /** `double.MaxValue`, the starting distance of the nearest-neighbour search. */
  const MaxDouble: real := 179769313486231570814527423731704356798070567525844996598917476803157260780028538760589558632766878171540458953514382464234321326889464182768467546703537516986049910576551282076245490090389328944075868508455133942304583236903222948165808559332123348274797826204144723168738177180919299881250404026184124858368.0

  /** `Σ_{j < count} images[j][i]`: pixel `i` summed over the first `count` images. */
  function PixelSum(images: seq<seq<real>>, i: int, count: nat): real
    requires count <= |images| && 0 <= i && forall j :: 0 <= j < count ==> i < |images[j]|
  {
    if count == 0 then 0.0 else PixelSum(images, i, count - 1) + images[count - 1][i]
  }

  /** All images have `size` pixels. */
  predicate SameSize(images: seq<seq<real>>, size: int)
  {
    forall j :: 0 <= j < |images| ==> |images[j]| == size
  }

  /** The mean image: pixel `i` is the sum of pixel `i` over all images divided by their number. */
  function MeanImage(images: seq<seq<real>>, size: nat): (mean: seq<real>)
    requires |images| > 0 && SameSize(images, size)
    ensures |mean| == size
  {
    seq(size, i requires 0 <= i < size => PixelSum(images, i, |images|) / |images| as real)
  }

  /** The first `size` pixels of `image` less the mean. */
  function Centered(image: seq<real>, mean: seq<real>, size: nat): (x: seq<real>)
    requires size <= |image| && size <= |mean|
    ensures |x| == size
  {
    seq(size, i requires 0 <= i < size => image[i] - mean[i])
  }

  /** `fisherfacesᵀ·x`: component `c` is `Σ_i fisherfaces[i, c]·x[i]` over the pixels of `x`. */
  function Project(W: Matrix, x: seq<real>, L: nat): (f: seq<real>)
    requires (L > 0 ==> |x| <= |W|) && forall i :: 0 <= i < |W| ==> |W[i]| == L
    ensures |f| == L
  {
    seq(L, c requires 0 <= c < L => Dot(Column(W, c), x, |x|))
  }

  /** `Σ_{c < L} (p[c] - q[c])²`, accumulated in component order. */
  function SquaredDistance(p: seq<real>, q: seq<real>, L: nat): real
    requires L <= |p| && L <= |q|
  {
    if L == 0 then 0.0 else SquaredDistance(p, q, L - 1) + (p[L - 1] - q[L - 1]) * (p[L - 1] - q[L - 1])
  }

  /** The state of the search loop of `Recognize`: the best index so far (`-1` for none) and its distance. */
  datatype Match = Match(best: int, minDist: real)

  /** The search over the first `count` training projections: a strictly smaller distance replaces the best. */
  function Nearest(probe: seq<real>, projections: seq<seq<real>>, L: nat, count: nat): (m: Match)
    requires L <= |probe| && count <= |projections| && forall j :: 0 <= j < |projections| ==> L <= |projections[j]|
    ensures -1 <= m.best < count
  {
    if count == 0 then Match(-1, MaxDouble)
    else
      var m := Nearest(probe, projections, L, count - 1);
      var dist := SquaredDistance(probe, projections[count - 1], L);
      if dist < m.minDist then Match(count - 1, dist) else m
  }

  /**
   * The search finds the first training projection at the least distance,
   * provided that distance is below `double.MaxValue`; when every distance
   * reaches it there is no match.
   */
  lemma {:induction false} NearestIsFirstMinimum(probe: seq<real>, projections: seq<seq<real>>, L: nat, count: nat)
    requires L <= |probe| && count <= |projections| && forall j :: 0 <= j < |projections| ==> L <= |projections[j]|
    ensures var m := Nearest(probe, projections, L, count);
      (m.best == -1 <==> forall j :: 0 <= j < count ==> SquaredDistance(probe, projections[j], L) >= MaxDouble) &&
      (m.best == -1 ==> m.minDist == MaxDouble) &&
      (m.best != -1 ==>
        0 <= m.best < count && m.minDist == SquaredDistance(probe, projections[m.best], L) && m.minDist < MaxDouble &&
        (forall j :: 0 <= j < count ==> m.minDist <= SquaredDistance(probe, projections[j], L)) &&
        (forall j :: 0 <= j < m.best ==> m.minDist < SquaredDistance(probe, projections[j], L)))
  {
    if count > 0 {
      NearestIsFirstMinimum(probe, projections, L, count - 1);
    }
  }

  /** A sum of squares is never negative. */
  lemma {:induction false} SquaredDistanceNonnegative(p: seq<real>, q: seq<real>, L: nat)
    requires L <= |p| && L <= |q|
    ensures SquaredDistance(p, q, L) >= 0.0
  {
    if L > 0 {
      SquaredDistanceNonnegative(p, q, L - 1);
      SquareNonnegative(p[L - 1] - q[L - 1]);
    }
  }

  lemma SquareNonnegative(d: real)
    ensures d * d >= 0.0
  {
    if d < 0.0 {
      assert d * d == (-d) * (-d);
    }
  }

  /** Projections that agree on the first `L` components are at distance zero. */
  lemma {:induction false} SquaredDistanceOfEqual(p: seq<real>, q: seq<real>, L: nat)
    requires L <= |p| && L <= |q| && p[..L] == q[..L]
    ensures SquaredDistance(p, q, L) == 0.0
  {
    if L > 0 {
      assert p[..L - 1] == p[..L][..L - 1] == q[..L][..L - 1] == q[..L - 1];
      assert p[L - 1] == p[..L][L - 1] == q[..L][L - 1] == q[L - 1];
      SquaredDistanceOfEqual(p, q, L - 1);
    }
  }

  /** What a recognizer holds: the fields `Train` sets and `Recognize` reads. */
  datatype Model = Model(
    imageSize: nat,
    mean: seq<real>,
    hasMean: bool,
    fisherfaces: Matrix,
    trainingProjections: seq<seq<real>>,
    trainingLabels: seq<int>,
    trained: bool)

  /**
   * A trained model is consistent: it has a mean, `L` components per basis
   * row and per training projection, and one label per training projection.
   * The basis need not have a row per mean pixel: a later `Train` that fails
   * after its mean step replaces the mean and keeps the old basis.
   */
  ghost predicate Consistent(m: Model, L: nat)
  {
    m.trained ==>
      m.hasMean &&
      (forall i :: 0 <= i < |m.fisherfaces| ==> |m.fisherfaces[i]| == L) &&
      (forall j :: 0 <= j < |m.trainingProjections| ==> |m.trainingProjections[j]| == L) &&
      |m.trainingLabels| == |m.trainingProjections|
  }

  /** The model a successful `Train` leaves, given the Fisherface basis of the numeric steps. */
  function TrainedModel(images: seq<seq<real>>, labels: seq<int>, basis: Matrix, L: nat): (m: Model)
    requires |images| > 0 && SameSize(images, |images[0]|) && IsMatrix(basis, |images[0]|, L)
  {
    var size := |images[0]|;
    var mean := MeanImage(images, size);
    Model(size, mean, true, basis, seq(|images|, j requires 0 <= j < |images| => Project(basis, Centered(images[j], mean, size), L)),
      labels, true)
  }

  /**
   * What `Recognize(image)` returns on a recognizer holding `m`, the checks in
   * the order the source meets them: the size check, the mean (null, or
   * shorter than the image size), the basis (null, or fewer rows than the
   * image size, read only when there are components), the training
   * projections (null), and the search.
   */
  function Recognition(m: Model, L: nat, image: seq<real>): Result<int, Error>
    requires Consistent(m, L)
  {
    if |image| != m.imageSize then Failure(ProbeSizeMismatch)
    else if m.imageSize > 0 && !m.hasMean then Failure(NullReference)
    else if m.imageSize > |m.mean| then Failure(IndexOutOfRange)
    else if !m.trained then Failure(NullReference)
    else if L > 0 && m.imageSize > |m.fisherfaces| then Failure(IndexOutOfRange)
    else
      var probe := Project(m.fisherfaces, Centered(image, m.mean, m.imageSize), L);
      var best := Nearest(probe, m.trainingProjections, L, |m.trainingProjections|).best;
      if best < 0 then Failure(IndexOutOfRange) else Success(m.trainingLabels[best])
  }

  /** Pixel `i` of the mean times the number of images is the pixel's sum. */
  lemma MeanIsAverage(images: seq<seq<real>>, size: nat, i: int)
    requires |images| > 0 && SameSize(images, size) && 0 <= i < size
    ensures MeanImage(images, size)[i] * |images| as real == PixelSum(images, i, |images|)
  {
  }

  /** Summing `x[j] - c` over `count` images gives the sum less `count·c`. */
  lemma {:induction false} PixelSumShifted(images: seq<seq<real>>, centered: seq<seq<real>>, i: int, c: real, count: nat)
    requires count <= |images| && count <= |centered| && 0 <= i
    requires forall j :: 0 <= j < count ==> i < |images[j]| && i < |centered[j]|
    requires forall j :: 0 <= j < count ==> centered[j][i] == images[j][i] - c
    ensures PixelSum(centered, i, count) == PixelSum(images, i, count) - count as real * c
  {
    if count > 0 {
      PixelSumShifted(images, centered, i, c, count - 1);
      assert count as real * c == (count - 1) as real * c + c;
    }
  }

  /** The centred training images sum to zero, pixel by pixel. */
  lemma CenteredSumsToZero(images: seq<seq<real>>, size: nat, i: int)
    requires |images| > 0 && SameSize(images, size) && 0 <= i < size
    ensures var mean := MeanImage(images, size);
      PixelSum(seq(|images|, j requires 0 <= j < |images| => Centered(images[j], mean, size)), i, |images|) == 0.0
  {
    var mean := MeanImage(images, size);
    var centered := seq(|images|, j requires 0 <= j < |images| => Centered(images[j], mean, size));
    PixelSumShifted(images, centered, i, mean[i], |images|);
    MeanIsAverage(images, size, i);
  }

  /** A probe at distance zero from training projection `j` matches it or an earlier one, at distance zero too. */
  lemma NearestOfExactMatch(probe: seq<real>, projections: seq<seq<real>>, L: nat, j: int)
    requires L <= |probe| && forall k :: 0 <= k < |projections| ==> L <= |projections[k]|
    requires 0 <= j < |projections| && SquaredDistance(probe, projections[j], L) == 0.0
    ensures var b := Nearest(probe, projections, L, |projections|).best;
      0 <= b <= j && SquaredDistance(probe, projections[b], L) == 0.0 &&
      forall k :: 0 <= k < b ==> SquaredDistance(probe, projections[k], L) > 0.0
  {
    NearestIsFirstMinimum(probe, projections, L, |projections|);
    var b := Nearest(probe, projections, L, |projections|).best;
    SquaredDistanceNonnegative(probe, projections[b], L);
  }

  /**
   * After training, each training image is recognised as the label of the
   * first training image whose projection is at distance zero from its own:
   * itself, unless an earlier image projects to the same point.
   */
  lemma TrainingImageMatches(images: seq<seq<real>>, labels: seq<int>, basis: Matrix, L: nat, j: int)
    requires |images| > 0 && SameSize(images, |images[0]|) && IsMatrix(basis, |images[0]|, L)
    requires |labels| == |images| && 0 <= j < |images|
    ensures var m := TrainedModel(images, labels, basis, L);
      Consistent(m, L) &&
      exists b :: 0 <= b <= j && Recognition(m, L, images[j]) == Success(labels[b]) &&
        SquaredDistance(m.trainingProjections[j], m.trainingProjections[b], L) == 0.0 &&
        forall k :: 0 <= k < b ==> m.trainingProjections[k] != m.trainingProjections[j]
  {
    var m := TrainedModel(images, labels, basis, L);
    var ps := m.trainingProjections;
    var probe := Project(basis, Centered(images[j], m.mean, m.imageSize), L);
    assert probe == ps[j];
    assert ps[j][..L] == ps[j];
    SquaredDistanceOfEqual(probe, ps[j], L);
    NearestOfExactMatch(probe, ps, L, j);
    var b := Nearest(probe, ps, L, |ps|).best;
    forall k | 0 <= k < b
      ensures ps[k] != ps[j]
    {
      assert SquaredDistance(probe, ps[k], L) > 0.0;
    }
    assert Recognition(m, L, images[j]) == Success(labels[b]);
  }

  /** Inputs that pass `Train`'s argument checks: images, one label each, all of the first image's length. */
  predicate TrainingSet(images: seq<seq<real>>, labels: seq<int>)
  {
    |images| > 0 && |images| == |labels| && SameSize(images, |images[0]|)
  }

  /** The outcome of `Train`. */
  datatype Status = Ok | Fail(error: Error)

  class FisherFaceRecognizer {
    var imageSize: nat
    var mean: seq<real>
    /** The mean array exists (it is null until a `Train` reaches its mean step). */
    var hasMean: bool
    /** `imageSize × numComponentsLDA`, column `c` the `c`-th Fisherface. */
    var fisherfaces: Matrix
    /** The projection of each training image: column `j` of the source's `trainingProjections`. */
    var trainingProjections: seq<seq<real>>
    var trainingLabels: seq<int>
    /** The model arrays exist (they are null until a `Train` succeeds). */
    var trained: bool
    const numComponentsPCA: int
    const numComponentsLDA: nat

    ghost function State(): Model
      reads this
    {
      Model(imageSize, mean, hasMean, fisherfaces, trainingProjections, trainingLabels, trained)
    }

    ghost predicate Valid()
      reads this
    {
      Consistent(State(), numComponentsLDA)
    }

    /** A recognizer keeping the given component counts, with no model yet. */
    constructor(numComponentsPCA: int, numComponentsLDA: nat)
      ensures Valid() && !trained && !hasMean && imageSize == 0
      ensures this.numComponentsPCA == numComponentsPCA && this.numComponentsLDA == numComponentsLDA
    {
      this.numComponentsPCA := numComponentsPCA;
      this.numComponentsLDA := numComponentsLDA;
      imageSize := 0;
      mean := [];
      hasMean := false;
      fisherfaces := [];
      trainingProjections := [];
      trainingLabels := [];
      trained := false;
    }

    /**
     * `Train(images, labels)`: validation, the mean image, centring, and the
     * training projections, with `basis` standing for the Fisherfaces the
     * PCA and LDA steps compute. `imageSize` is set before the per-image
     * size check, so a size failure still changes it; the component-count
     * failures of the PCA and LDA steps come after the mean is stored.
     */
    method Train(images: seq<seq<real>>, labels: seq<int>, basis: Matrix) returns (status: Status)
      requires Valid()
      requires |images| > 0 ==> IsMatrix(basis, |images[0]|, numComponentsLDA)
      modifies this
      ensures Valid()
      ensures status == Fail(NoImages) <==> |images| == 0
      ensures status == Fail(LabelCountMismatch) <==> |images| > 0 && |images| != |labels|
      ensures status == Fail(ImageSizeMismatch) <==>
        |images| > 0 && |images| == |labels| && !SameSize(images, |images[0]|)
      ensures status == Fail(Overflow) <==> TrainingSet(images, labels) && numComponentsPCA < 0
      ensures status == Fail(IndexOutOfRange) <==>
        TrainingSet(images, labels) && 0 <= numComponentsPCA &&
        (numComponentsPCA > |images| || numComponentsLDA > numComponentsPCA)
      ensures status == Ok <==> TrainingSet(images, labels) && numComponentsLDA <= numComponentsPCA <= |images|
      ensures status == Fail(NoImages) || status == Fail(LabelCountMismatch) ==> State() == old(State())
      ensures status == Fail(ImageSizeMismatch) ==> State() == old(State()).(imageSize := |images[0]|)
      ensures status == Fail(Overflow) || status == Fail(IndexOutOfRange) ==>
        State() == old(State()).(imageSize := |images[0]|, mean := MeanImage(images, |images[0]|), hasMean := true)
      ensures status == Ok ==> State() == TrainedModel(images, labels, basis, numComponentsLDA)
    {
      if |images| == 0 {
        return Fail(NoImages);
      }
      if |images| != |labels| {
        return Fail(LabelCountMismatch);
      }
      var numImages := |images|;
      var size := |images[0]|;
      imageSize := size;
      for i := 0 to numImages
        invariant forall j :: 0 <= j < i ==> |images[j]| == size
      {
        if |images[i]| != size {
          return Fail(ImageSizeMismatch);
        }
      }
      assert TrainingSet(images, labels);
      // 1. The mean image.
      var m := ComputeMean(images, size);
      mean := m;
      hasMean := true;
      // 2. The centred images.
      var centered := CenterImages(images, m, size);
      // 3-9. PCA and LDA give the Fisherface basis. The PCA basis has
      // `numComponentsPCA` columns chosen among `numImages` eigenvectors, the
      // LDA basis `numComponentsLDA` columns among `numComponentsPCA`.
      if numComponentsPCA < 0 {
        return Fail(Overflow);
      }
      if numComponentsPCA > numImages {
        return Fail(IndexOutOfRange);
      }
      if numComponentsLDA > numComponentsPCA {
        return Fail(IndexOutOfRange);
      }
      fisherfaces := basis;
      // 10. The training projections.
      var projections := ProjectAll(basis, centered, numComponentsLDA);
      trainingProjections := projections;
      assert projections == TrainedModel(images, labels, basis, numComponentsLDA).trainingProjections;
      // 11. The labels.
      trainingLabels := labels;
      trained := true;
      return Ok;
    }

    /**
     * `Recognize(image)`: the label of the first training image whose
     * projection is nearest to the probe's, after the size check.
     */
    method Recognize(image: seq<real>) returns (r: Result<int, Error>)
      requires Valid()
      ensures r == Recognition(State(), numComponentsLDA, image)
    {
      if |image| != imageSize {
        return Failure(ProbeSizeMismatch);
      }
      if imageSize > 0 && !hasMean {
        return Failure(NullReference);
      }
      if imageSize > |mean| {
        return Failure(IndexOutOfRange);
      }
      if !trained {
        return Failure(NullReference);
      }
      if numComponentsLDA > 0 && imageSize > |fisherfaces| {
        return Failure(IndexOutOfRange);
      }
      var x := [];
      for i := 0 to imageSize
        invariant x == Centered(image, mean, i)
      {
        x := x + [image[i] - mean[i]];
      }
      var projection := ProjectImage(fisherfaces, x, numComponentsLDA);
      var bestIndex := FindNearest(projection, trainingProjections, numComponentsLDA);
      if bestIndex < 0 {
        return Failure(IndexOutOfRange);
      }
      return Success(trainingLabels[bestIndex]);
    }
  }

  /** Step 1 of `Train`: the mean image, pixel by pixel. */
  method ComputeMean(images: seq<seq<real>>, size: nat) returns (mean: seq<real>)
    requires |images| > 0 && SameSize(images, size)
    ensures mean == MeanImage(images, size)
  {
    var m := new real[size](_ => 0.0);
    for i := 0 to size
      invariant forall i' :: 0 <= i' < i ==> m[i'] == PixelSum(images, i', |images|) / |images| as real
    {
      var sum := 0.0;
      for j := 0 to |images|
        invariant sum == PixelSum(images, i, j)
      {
        sum := sum + images[j][i];
      }
      m[i] := sum / |images| as real;
    }
    mean := m[..];
  }

  /** Step 2 of `Train`: every image less the mean. */
  method CenterImages(images: seq<seq<real>>, mean: seq<real>, size: nat) returns (centered: seq<seq<real>>)
    requires SameSize(images, size) && |mean| == size
    ensures |centered| == |images|
    ensures forall j :: 0 <= j < |images| ==> centered[j] == Centered(images[j], mean, size)
  {
    centered := [];
    for j := 0 to |images|
      invariant |centered| == j
      invariant forall j' :: 0 <= j' < j ==> centered[j'] == Centered(images[j'], mean, size)
    {
      var row := new real[size](_ => 0.0);
      for i := 0 to size
        invariant forall i' :: 0 <= i' < i ==> row[i'] == images[j][i'] - mean[i']
      {
        row[i] := images[j][i] - mean[i];
      }
      centered := centered + [row[..]];
    }
  }

  /** The projection loops of `Train` and `Recognize`: `Σ_i fisherfaces[i, c]·x[i]` for each component `c`. */
  method ProjectImage(W: Matrix, x: seq<real>, L: nat) returns (f: seq<real>)
    requires (L > 0 ==> |x| <= |W|) && forall i :: 0 <= i < |W| ==> |W[i]| == L
    ensures f == Project(W, x, L)
  {
    f := [];
    for c := 0 to L
      invariant |f| == c
      invariant forall c' :: 0 <= c' < c ==> f[c'] == Dot(Column(W, c'), x, |x|)
    {
      var sum := 0.0;
      for i := 0 to |x|
        invariant sum == Dot(Column(W, c), x, i)
      {
        sum := sum + W[i][c] * x[i];
      }
      f := f + [sum];
    }
  }

  /** Step 10 of `Train`: the projection of every centred image, in order. */
  method ProjectAll(W: Matrix, xs: seq<seq<real>>, L: nat) returns (projections: seq<seq<real>>)
    requires forall i :: 0 <= i < |W| ==> |W[i]| == L
    requires forall j :: 0 <= j < |xs| ==> (L > 0 ==> |xs[j]| <= |W|)
    ensures |projections| == |xs|
    ensures forall j :: 0 <= j < |xs| ==> projections[j] == Project(W, xs[j], L)
  {
    projections := [];
    for j := 0 to |xs|
      invariant |projections| == j
      invariant forall j' :: 0 <= j' < j ==> projections[j'] == Project(W, xs[j'], L)
    {
      var f := ProjectImage(W, xs[j], L);
      projections := projections + [f];
    }
  }

  /** The inner loop of the search: the squared differences summed in component order. */
  method Distance(p: seq<real>, q: seq<real>, L: nat) returns (dist: real)
    requires L <= |p| && L <= |q|
    ensures dist == SquaredDistance(p, q, L)
  {
    dist := 0.0;
    for c := 0 to L
      invariant dist == SquaredDistance(p, q, c)
    {
      var diff := p[c] - q[c];
      dist := dist + diff * diff;
    }
  }

  /** The search loop of `Recognize`: the index of the nearest training projection, `-1` for none. */
  method FindNearest(probe: seq<real>, projections: seq<seq<real>>, L: nat) returns (bestIndex: int)
    requires L <= |probe| && forall j :: 0 <= j < |projections| ==> L <= |projections[j]|
    ensures bestIndex == Nearest(probe, projections, L, |projections|).best
  {
    bestIndex := -1;
    var minDist := MaxDouble;
    for j := 0 to |projections|
      invariant Match(bestIndex, minDist) == Nearest(probe, projections, L, j)
    {
      var dist := Distance(probe, projections[j], L);
      if dist < minDist {
        minDist := dist;
        bestIndex := j;
      }
    }
  }
}
