/** Flat row-major matrices of src/matrix.rs over exact reals: compensated sums, the in-place Cholesky
    factorisation, transposition and multiplication. Rounding is not modelled; the square root is a
    parameter. */
module Matrix {
  import opened Prelude

  const MAX_ENTRIES: nat := 100_000
  const MAX_MULTIPLY_WORK: nat := 50_000_000

  function Abs(x: real): real {
    if x < 0.0 then -x else x
  }

  function Max(x: real, y: real): real {
    if x < y then y else x
  }

  // ---- sums -------------------------------------------------------------------------------

  function Sum(vs: seq<real>): real {
    if |vs| == 0 then 0.0 else Sum(vs[..|vs| - 1]) + vs[|vs| - 1]
  }

  /** `compensated_sum`: over exact reals the correction stays zero and the result is the sum. */
  method CompensatedSum(vs: seq<real>) returns (r: real)
    ensures r == Sum(vs)
  {
    var total, correction := 0.0, 0.0;
    for i := 0 to |vs|
      invariant total == Sum(vs[..i]) && correction == 0.0
    {
      var value := vs[i];
      var next := total + value;
      correction := correction + if Abs(total) >= Abs(value) then (total - next) + value else (value - next) + total;
      total := next;
      assert vs[..i + 1][..i] == vs[..i];
    }
    assert vs[..|vs|] == vs;
    r := total + correction;
  }

  // ---- flat indexing ----------------------------------------------------------------------

  function Ix(columns: nat, i: nat, j: nat): nat {
    i * columns + j
  }

  lemma IxInside(rows: nat, columns: nat, i: nat, j: nat)
    requires i < rows && j < columns
    ensures Ix(columns, i, j) < rows * columns
  {
    assert i * columns + j < (i + 1) * columns <= rows * columns;
  }

  lemma IxOrder(columns: nat, i: nat, j: nat, i': nat)
    ensures j < columns && i < i' ==> Ix(columns, i, j) < i' * columns
  {
    if j < columns && i < i' {
      assert i * columns + j < (i + 1) * columns <= i' * columns;
    }
  }

  lemma IxDistinct(columns: nat, i: nat, j: nat, i': nat, j': nat)
    requires j < columns && j' < columns && Ix(columns, i, j) == Ix(columns, i', j')
    ensures i == i' && j == j'
  {
    IxOrder(columns, i, j, i');
    IxOrder(columns, i', j', i);
  }

  lemma Coordinates(rows: nat, columns: nat, k: nat)
    requires k < rows * columns
    ensures columns > 0 && k / columns < rows && k % columns < columns && Ix(columns, k / columns, k % columns) == k
  {
    assert columns > 0;
    var i, j := k / columns, k % columns;
    assert k == i * columns + j;
    assert i >= rows ==> i * columns >= rows * columns;
  }

  /** Entry (i, j) of a flat matrix with `n` columns and `rows` rows. */
  function At(a: seq<real>, rows: nat, n: nat, i: nat, j: nat): real
    requires |a| == rows * n && i < rows && j < n
  {
    IxInside(rows, n, i, j);
    a[Ix(n, i, j)]
  }

  // ---- transposition ----------------------------------------------------------------------

  ghost predicate IsTranspose(t: seq<real>, a: seq<real>, rows: nat, columns: nat) {
    && |a| == rows * columns && |t| == columns * rows
    && forall i: nat, j: nat | i < rows && j < columns :: At(t, columns, rows, j, i) == At(a, rows, columns, i, j)
  }
  /** The largest magnitude; zero only for the zero matrix. */
  method LargestMagnitude(a: seq<real>) returns (scale: real)
    ensures scale >= 0.0 && forall k | 0 <= k < |a| :: Abs(a[k]) <= scale
  {
    scale := 0.0;
    for i := 0 to |a|
      invariant scale >= 0.0 && forall k | 0 <= k < i :: Abs(a[k]) <= scale
    {
      scale := Max(scale, Abs(a[i]));
    }
  }

  /** Matrices with equal entries are equal. */
  lemma SameEntriesSame(a: seq<real>, b: seq<real>, rows: nat, columns: nat)
    requires |a| == rows * columns && |b| == rows * columns
    requires forall i: nat, j: nat | i < rows && j < columns :: At(a, rows, columns, i, j) == At(b, rows, columns, i, j)
    ensures a == b
  {
    forall k | 0 <= k < rows * columns
      ensures a[k] == b[k]
    {
      Coordinates(rows, columns, k);
      assert At(a, rows, columns, k / columns, k % columns) == At(b, rows, columns, k / columns, k % columns);
    }
  }

  /** A nonempty matrix of the declared shape, within the entry limit. */
  predicate Shaped(a: seq<real>, rows: nat, columns: nat) {
    rows > 0 && columns > 0 && |a| == rows * columns <= MAX_ENTRIES
  }

  /** `transpose`, once the shape is read as two integers: refused exactly where array and shape disagree, or
      are empty or too large. */
  method Transpose(values: seq<real>, rows: nat, columns: nat) returns (result: Option<seq<real>>)
    ensures result.Some? <==> Shaped(values, rows, columns)
    ensures result.Some? ==> IsTranspose(result.value, values, rows, columns)
  {
    if rows == 0 || columns == 0 || rows * columns > MAX_ENTRIES || |values| != rows * columns {
      return None;
    }
    assert columns * rows == rows * columns;
    var buffer := new real[columns * rows](_ => 0.0);
    for row := 0 to rows
      invariant forall i: nat, j: nat | i < row && j < columns ::
                  At(buffer[..], columns, rows, j, i) == At(values, rows, columns, i, j)
    {
      for column := 0 to columns
        invariant forall i: nat, j: nat | i < row && j < columns ::
                    At(buffer[..], columns, rows, j, i) == At(values, rows, columns, i, j)
        invariant forall j: nat | j < column :: At(buffer[..], columns, rows, j, row) == At(values, rows, columns, row, j)
      {
        IxInside(rows, columns, row, column);
        IxInside(columns, rows, column, row);
        ghost var before := buffer[..];
        buffer[column * rows + row] := values[row * columns + column];
        forall i: nat, j: nat | i < rows && j < columns
          ensures At(buffer[..], columns, rows, j, i) ==
                    if i == row && j == column then At(values, rows, columns, row, column) else At(before, columns, rows, j, i)
        {
          IxInside(columns, rows, j, i);
          if Ix(rows, j, i) == Ix(rows, column, row) {
            IxDistinct(rows, j, i, column, row);
          }
        }
      }
    }
    result := Some(buffer[..]);
  }

  /** Transposing twice gives the matrix back. */
  lemma TransposeTwice(a: seq<real>, t: seq<real>, u: seq<real>, rows: nat, columns: nat)
    requires IsTranspose(t, a, rows, columns) && IsTranspose(u, t, columns, rows)
    ensures u == a
  {
    forall i: nat, j: nat | i < rows && j < columns
      ensures At(u, rows, columns, i, j) == At(a, rows, columns, i, j)
    {
      assert At(u, rows, columns, i, j) == At(t, columns, rows, j, i);
    }
    SameEntriesSame(u, a, rows, columns);
  }

  // ---- multiplication ---------------------------------------------------------------------

  /** The first `k` terms of row `i` of `a` against column `j` of `b`. */
  function Inner(a: seq<real>, b: seq<real>, rows: nat, middle: nat, columns: nat, i: nat, j: nat, k: nat): real
    requires |a| == rows * middle && |b| == middle * columns && i < rows && j < columns && k <= middle
  {
    if k == 0 then 0.0
    else Inner(a, b, rows, middle, columns, i, j, k - 1)
         + At(a, rows, middle, i, k - 1) * At(b, middle, columns, k - 1, j)
  }

  ghost predicate IsProduct(p: seq<real>, a: seq<real>, b: seq<real>, rows: nat, middle: nat, columns: nat) {
    && |a| == rows * middle && |b| == middle * columns && |p| == rows * columns
    && forall i: nat, j: nat | i < rows && j < columns ::
         At(p, rows, columns, i, j) == Inner(a, b, rows, middle, columns, i, j, middle)
  }

  /** `multiply`, once the shapes are read: refused exactly where the inner dimensions differ, an array and its
      shape disagree, or the result or the number of scalar products is too large. */
  method Multiply(a: seq<real>, rows: nat, middle: nat, b: seq<real>, rightRows: nat, columns: nat)
    returns (result: Option<seq<real>>)
    ensures result.Some? <==>
      && middle == rightRows && Shaped(a, rows, middle) && Shaped(b, middle, columns)
      && rows * columns <= MAX_ENTRIES && rows * columns * middle <= MAX_MULTIPLY_WORK
    ensures result.Some? ==> IsProduct(result.value, a, b, rows, middle, columns)
  {
    if middle != rightRows || rows == 0 || middle == 0 || columns == 0 {
      return None;
    }
    if rows * middle > MAX_ENTRIES || middle * columns > MAX_ENTRIES || rows * columns > MAX_ENTRIES {
      return None;
    }
    if rows * columns * middle > MAX_MULTIPLY_WORK || |a| != rows * middle || |b| != middle * columns {
      return None;
    }
    var product := FillProduct(a, b, rows, middle, columns);
    result := Some(product);
  }

  /** The loops of `multiply`. */
  method FillProduct(a: seq<real>, b: seq<real>, rows: nat, middle: nat, columns: nat) returns (result: seq<real>)
    requires |a| == rows * middle && |b| == middle * columns
    ensures IsProduct(result, a, b, rows, middle, columns)
  {
    hide Inner;
    result := [];
    assert 0 * columns == 0;
    for row := 0 to rows
      invariant |result| == row * columns
      invariant forall i: nat, j: nat | i < row && j < columns ::
                  Ix(columns, i, j) < |result| && result[Ix(columns, i, j)] == Inner(a, b, rows, middle, columns, i, j, middle)
    {
      for column := 0 to columns
        invariant |result| == row * columns + column
        invariant forall i: nat, j: nat | i < row && j < columns ::
                    Ix(columns, i, j) < |result| && result[Ix(columns, i, j)] == Inner(a, b, rows, middle, columns, i, j, middle)
        invariant forall j: nat | j < column ::
                    Ix(columns, row, j) < |result| && result[Ix(columns, row, j)] == Inner(a, b, rows, middle, columns, row, j, middle)
      {
        var terms := RowTerms(a, b, rows, middle, columns, row, column);
        var entry' := CompensatedSum(terms);
        result := result + [entry'];
      }
      assert row * columns + columns == (row + 1) * columns;
    }
    forall i: nat, j: nat | i < rows && j < columns
      ensures At(result, rows, columns, i, j) == Inner(a, b, rows, middle, columns, i, j, middle)
    {
      IxInside(rows, columns, i, j);
    }
  }

  method RowTerms(a: seq<real>, b: seq<real>, rows: nat, middle: nat, columns: nat, i: nat, j: nat) returns (terms: seq<real>)
    requires |a| == rows * middle && |b| == middle * columns && i < rows && j < columns
    ensures |terms| == middle && Sum(terms) == Inner(a, b, rows, middle, columns, i, j, middle)
  {
    terms := [];
    for k := 0 to middle
      invariant |terms| == k && Sum(terms) == Inner(a, b, rows, middle, columns, i, j, k)
    {
      IxInside(rows, middle, i, k);
      IxInside(middle, columns, k, j);
      ghost var before := terms;
      terms := terms + [a[i * middle + k] * b[k * columns + j]];
      assert terms[..k] == before;
    }
  }

  /** The transpose of a product is the product of the transposes, in the other order. */
  lemma ProductTransposed(p: seq<real>, a: seq<real>, b: seq<real>, pt: seq<real>, at: seq<real>, bt: seq<real>,
                          rows: nat, middle: nat, columns: nat)
    requires IsProduct(p, a, b, rows, middle, columns)
    requires IsTranspose(pt, p, rows, columns) && IsTranspose(at, a, rows, middle) && IsTranspose(bt, b, middle, columns)
    ensures IsProduct(pt, bt, at, columns, middle, rows)
  {
    hide At, Inner;
    forall i: nat, j: nat | i < columns && j < rows
      ensures At(pt, columns, rows, i, j) == Inner(bt, at, columns, middle, rows, i, j, middle)
    {
      InnerTransposed(a, b, at, bt, rows, middle, columns, j, i, middle);
      assert At(pt, columns, rows, i, j) == At(p, rows, columns, j, i);
    }
  }

  lemma {:induction false} InnerTransposed(a: seq<real>, b: seq<real>, at: seq<real>, bt: seq<real>,
                                           rows: nat, middle: nat, columns: nat, i: nat, j: nat, k: nat)
    requires IsTranspose(at, a, rows, middle) && IsTranspose(bt, b, middle, columns)
    requires i < rows && j < columns && k <= middle
    ensures Inner(bt, at, columns, middle, rows, j, i, k) == Inner(a, b, rows, middle, columns, i, j, k)
  {
    hide At;
    if k > 0 {
      InnerTransposed(a, b, at, bt, rows, middle, columns, i, j, k - 1);
      assert At(at, middle, rows, k - 1, i) == At(a, rows, middle, i, k - 1);
      assert At(bt, columns, middle, j, k - 1) == At(b, middle, columns, k - 1, j);
    }
  }
}
