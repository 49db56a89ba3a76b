/**
  The immutable `Matrix` class of Assignment-1/Program2.java. Entries are
  exact reals (the source's `double` rounding is not modelled); the
  constructor's argument, a Java `double[][]`, is the sequence of its rows as
  they are when the constructor runs.
*/
module Matrices {
  import opened Wrappers

  /** The `IllegalArgumentException`s the class throws, by message. */
  datatype MatrixError =
    | EmptyData          // "Matrix data cannot be empty or null."
    | RaggedRows         // "All rows must have the same number of columns."
    | DimensionMismatch(cols: nat, otherRows: nat)  // "Cannot multiply: Columns of the first matrix (cols) ..."

  /** Every row has the length of row 0. */
  predicate Rectangular(m: seq<seq<real>>)
  {
    forall i :: 0 <= i < |m| ==> |m[i]| == |m[0]|
  }

  /** What the constructor accepts: at least one row, all rows of one length. */
  predicate WellFormed(m: seq<seq<real>>)
  {
    |m| > 0 && Rectangular(m)
  }

  /** Row i, column j of the transpose is row j, column i of `m`. */
  function TransposeOf(m: seq<seq<real>>): (t: seq<seq<real>>)
    requires WellFormed(m)
  {
    seq(|m[0]|, j requires 0 <= j < |m[0]| => seq(|m|, i requires 0 <= i < |m| => m[i][j]))
  }

  /** The sum over k < n of a[i][k] * b[k][j]. */
  function Dot(a: seq<seq<real>>, b: seq<seq<real>>, i: int, j: int, n: nat): real
    requires WellFormed(a) && WellFormed(b) && 0 <= i < |a| && 0 <= j < |b[0]|
    requires n <= |a[0]| && n <= |b|
  {
    if n == 0 then 0.0 else Dot(a, b, i, j, n - 1) + a[i][n - 1] * b[n - 1][j]
  }

  /** The matrix product: |a| rows, |b[0]| columns, entry (i, j) the dot product of row i and column j. */
  function Product(a: seq<seq<real>>, b: seq<seq<real>>): seq<seq<real>>
    requires WellFormed(a) && WellFormed(b) && |a[0]| == |b|
  {
    seq(|a|, i requires 0 <= i < |a| =>
      seq(|b[0]|, j requires 0 <= j < |b[0]| => Dot(a, b, i, j, |b|)))
  }

  /** The rows of a two-dimensional array, as sequences. */
  function ArrayRows(a: array2<real>): (m: seq<seq<real>>)
    reads a
    ensures |m| == a.Length0
    ensures forall i :: 0 <= i < a.Length0 ==> |m[i]| == a.Length1
    ensures forall i, j :: 0 <= i < a.Length0 && 0 <= j < a.Length1 ==> m[i][j] == a[i, j]
  {
    seq(a.Length0, i requires 0 <= i < a.Length0 reads a =>
      seq(a.Length1, j requires 0 <= j < a.Length1 reads a => a[i, j]))
  }

  // ---------------------------------------------------------------------
  // Properties of the specification
  // ---------------------------------------------------------------------

  /** The transpose has the swapped shape, and entry (j, i) is entry (i, j) of the input. */
  lemma TransposeShape(m: seq<seq<real>>)
    requires WellFormed(m)
    ensures |TransposeOf(m)| == |m[0]|
    ensures forall j :: 0 <= j < |m[0]| ==> |TransposeOf(m)[j]| == |m|
    ensures forall i, j :: 0 <= i < |m| && 0 <= j < |m[0]| ==> TransposeOf(m)[j][i] == m[i][j]
    ensures |m[0]| > 0 ==> WellFormed(TransposeOf(m))
  {
  }

  /** Transposing twice gives the matrix back, when it has a column. */
  lemma TransposeTwice(m: seq<seq<real>>)
    requires WellFormed(m) && |m[0]| > 0
    ensures WellFormed(TransposeOf(m))
    ensures TransposeOf(TransposeOf(m)) == m
  {
    var t := TransposeOf(m);
    assert WellFormed(t);
    var tt := TransposeOf(t);
    assert |tt| == |m|;
    forall i | 0 <= i < |m|
      ensures tt[i] == m[i]
    {
      assert |tt[i]| == |m[i]|;
    }
  }

  /** Row i and column j of a * b are column i and row j of b^T * a^T. */
  lemma {:induction false} DotTransposed(a: seq<seq<real>>, b: seq<seq<real>>, i: int, j: int, n: nat)
    requires WellFormed(a) && WellFormed(b) && 0 <= i < |a| && 0 <= j < |b[0]|
    requires n <= |a[0]| && n <= |b| && |a[0]| > 0 && |b[0]| > 0
    ensures Dot(a, b, i, j, n) == Dot(TransposeOf(b), TransposeOf(a), j, i, n)
  {
    if n > 0 {
      DotTransposed(a, b, i, j, n - 1);
    }
  }

  /** (a * b)^T == b^T * a^T. */
  lemma ProductTransposed(a: seq<seq<real>>, b: seq<seq<real>>)
    requires WellFormed(a) && WellFormed(b) && |a[0]| == |b| && |a[0]| > 0 && |b[0]| > 0
    ensures WellFormed(Product(a, b))
    ensures TransposeOf(Product(a, b)) == Product(TransposeOf(b), TransposeOf(a))
  {
    var p := Product(a, b);
    var q := Product(TransposeOf(b), TransposeOf(a));
    assert WellFormed(p);
    forall j | 0 <= j < |b[0]|
      ensures TransposeOf(p)[j] == q[j]
    {
      forall i | 0 <= i < |a|
        ensures TransposeOf(p)[j][i] == q[j][i]
      {
        DotTransposed(a, b, i, j, |b|);
      }
    }
  }

  // ---------------------------------------------------------------------
  // The class
  // ---------------------------------------------------------------------

  class Matrix {
    const rows: nat
    const cols: nat
    const data: array2<real>

    /** At least one row (the constructor refuses none); `data` has the matrix's shape. */
    ghost predicate Valid()
      reads this
    {
      rows > 0 && data.Length0 == rows && data.Length1 == cols
    }

    /** The entries, row by row. */
    ghost function Entries(): seq<seq<real>>
      reads this, data
    {
      ArrayRows(data)
    }

    /**
      The copying part of the constructor: `data` is a fresh
      `rows` x `cols` array holding the input's entries.
    */
    constructor (input: seq<seq<real>>)
      requires WellFormed(input)
      ensures Valid() && fresh(data)
      ensures rows == |input| && cols == |input[0]|
      ensures Entries() == input
    {
      var copy := new real[|input|, |input[0]|];
      for i := 0 to |input|
        invariant forall i', j :: 0 <= i' < i && 0 <= j < |input[0]| ==> copy[i', j] == input[i'][j]
      {
        for j := 0 to |input[0]|
          invariant forall i', j' :: 0 <= i' < i && 0 <= j' < |input[0]| ==> copy[i', j'] == input[i'][j']
          invariant forall j' :: 0 <= j' < j ==> copy[i, j'] == input[i][j']
        {
          copy[i, j] := input[i][j];
        }
      }
      rows, cols, data := |input|, |input[0]|, copy;
      new;
      assert ArrayRows(data) == input by {
        forall i | 0 <= i < rows
          ensures ArrayRows(data)[i] == input[i]
        {
        }
      }
    }

    /** `transpose`: a fresh `cols` x `rows` matrix, or the constructor's exception when there are no columns. */
    method Transpose() returns (r: Result<Matrix, MatrixError>)
      requires Valid()
      ensures cols == 0 ==> r == Failure(EmptyData)
      ensures cols > 0 ==> r.Success? && fresh(r.value) && fresh(r.value.data) && r.value.Valid()
      ensures cols > 0 ==> r.value.rows == cols && r.value.cols == rows
      ensures cols > 0 ==> r.value.Entries() == TransposeOf(Entries())
    {
      var t := new real[cols, rows];
      for i := 0 to rows
        invariant forall i', j :: 0 <= i' < i && 0 <= j < cols ==> t[j, i'] == data[i', j]
      {
        for j := 0 to cols
          invariant forall i', j' :: 0 <= i' < i && 0 <= j' < cols ==> t[j', i'] == data[i', j']
          invariant forall j' :: 0 <= j' < j ==> t[j', i] == data[i, j']
        {
          t[j, i] := data[i, j];
        }
      }
      assert cols > 0 ==> ArrayRows(t) == TransposeOf(Entries()) by {
        if cols > 0 {
          forall j | 0 <= j < cols
            ensures ArrayRows(t)[j] == TransposeOf(Entries())[j]
          {
          }
        }
      }
      r := NewMatrix(ArrayRows(t));
    }

    /**
      `multiply`: refuses unless `cols == other.rows`; otherwise a fresh
      `rows` x `other.cols` matrix whose entry (i, j) accumulates
      `data[i][k] * other.data[k][j]` over k into a zero-initialised cell.
    */
    method Multiply(other: Matrix) returns (r: Result<Matrix, MatrixError>)
      requires Valid() && other.Valid()
      ensures cols != other.rows ==> r == Failure(DimensionMismatch(cols, other.rows))
      ensures cols == other.rows ==> r.Success? && fresh(r.value) && fresh(r.value.data) && r.value.Valid()
      ensures cols == other.rows ==> r.value.rows == rows && r.value.cols == other.cols
      ensures cols == other.rows ==> r.value.Entries() == Product(Entries(), other.Entries())
    {
      if cols != other.rows {
        return Failure(DimensionMismatch(cols, other.rows));
      }
      ghost var a, b := Entries(), other.Entries();
      var p := other.cols;
      var result := new real[rows, p]((_, _) => 0.0);
      for i := 0 to rows
        invariant forall i', j' :: 0 <= i' < i && 0 <= j' < p ==> result[i', j'] == Dot(a, b, i', j', cols)
        invariant forall i', j' :: i <= i' < rows && 0 <= j' < p ==> result[i', j'] == 0.0
      {
        FillRow(this, other, result, i);
      }
      assert ArrayRows(result) == Product(a, b) by {
        forall i | 0 <= i < rows
          ensures ArrayRows(result)[i] == Product(a, b)[i]
        {
        }
      }
      r := NewMatrix(ArrayRows(result));
    }
  }

  /**
    The middle loop of `multiply`: every cell of row i of the zeroed
    `result` receives its dot product; the other rows are untouched.
  */
  method FillRow(m: Matrix, other: Matrix, result: array2<real>, i: int)
    requires m.Valid() && other.Valid() && m.cols == other.rows
    requires result != m.data && result != other.data
    requires result.Length0 == m.rows && result.Length1 == other.cols
    requires 0 <= i < m.rows
    requires forall j :: 0 <= j < other.cols ==> result[i, j] == 0.0
    modifies result
    ensures forall j :: 0 <= j < other.cols ==> result[i, j] == Dot(m.Entries(), other.Entries(), i, j, m.cols)
    ensures forall i', j :: 0 <= i' < result.Length0 && i' != i && 0 <= j < result.Length1 ==>
      result[i', j] == old(result[i', j])
  {
    for j := 0 to other.cols
      invariant forall j' :: 0 <= j' < j ==> result[i, j'] == Dot(m.Entries(), other.Entries(), i, j', m.cols)
      invariant forall j' :: j <= j' < other.cols ==> result[i, j'] == 0.0
      invariant forall i', j' :: 0 <= i' < result.Length0 && i' != i && 0 <= j' < result.Length1 ==>
        result[i', j'] == old(result[i', j'])
    {
      AccumulateEntry(m, other, result, i, j);
    }
  }

  /**
    The innermost loop of `multiply`: adds `data[i][k] * other.data[k][j]`
    for every k to cell (i, j) of `result`, and to no other cell.
  */
  method AccumulateEntry(m: Matrix, other: Matrix, result: array2<real>, i: int, j: int)
    requires m.Valid() && other.Valid() && m.cols == other.rows
    requires result != m.data && result != other.data
    requires result.Length0 == m.rows && result.Length1 == other.cols
    requires 0 <= i < m.rows && 0 <= j < other.cols
    modifies result
    ensures result[i, j] == old(result[i, j]) + Dot(m.Entries(), other.Entries(), i, j, m.cols)
    ensures forall i', j' :: 0 <= i' < result.Length0 && 0 <= j' < result.Length1 && (i' != i || j' != j) ==>
      result[i', j'] == old(result[i', j'])
  {
    ghost var a, b := m.Entries(), other.Entries();
    for k := 0 to m.cols
      invariant result[i, j] == old(result[i, j]) + Dot(a, b, i, j, k)
      invariant forall i', j' :: 0 <= i' < result.Length0 && 0 <= j' < result.Length1 && (i' != i || j' != j) ==>
        result[i', j'] == old(result[i', j'])
    {
      assert m.data[i, k] == a[i][k] && other.data[k, j] == b[k][j];
      result[i, j] := result[i, j] + m.data[i, k] * other.data[k, j];
    }
  }

  /**
    `new Matrix(inputData)` with its checks: no rows is refused, then a row
    whose length differs from row 0's; otherwise a fresh copy of the input.
  */
  method NewMatrix(input: seq<seq<real>>) returns (r: Result<Matrix, MatrixError>)
    ensures r.Failure? <==> !WellFormed(input)
    ensures |input| == 0 ==> r == Failure(EmptyData)
    ensures |input| > 0 && !Rectangular(input) ==> r == Failure(RaggedRows)
    ensures r.Success? ==> fresh(r.value) && fresh(r.value.data) && r.value.Valid()
    ensures r.Success? ==> r.value.rows == |input| && r.value.cols == |input[0]|
    ensures r.Success? ==> r.value.Entries() == input
  {
    if |input| == 0 {
      return Failure(EmptyData);
    }
    for i := 0 to |input|
      invariant forall i' :: 0 <= i' < i ==> |input[i']| == |input[0]|
    {
      if |input[i]| != |input[0]| {
        return Failure(RaggedRows);
      }
    }
    var m := new Matrix(input);
    return Success(m);
  }
}
