/** `factor` of src/matrix.rs: the factorisation it computes, when it accepts, and that there is no
    other. */
module Cholesky {
  import opened Prelude
  import opened Matrix

  /** 2 to the power -52, the spacing of doubles at one. */
  const EPSILON: real := 1.0 / 4503599627370496.0

  /** What is assumed of the square root. */
  ghost predicate IsRoot(sqrt: real -> real) {
    forall x | x >= 0.0 :: sqrt(x) >= 0.0 && sqrt(x) * sqrt(x) == x
  }

  // ---- what a factorisation is ------------------------------------------------------------

  /** The first `k` terms of entry (i, j) of L times its transpose. */
  function Dot(l: seq<real>, n: nat, i: nat, j: nat, k: nat): real
    requires |l| == n * n && i < n && j < n && k <= n
  {
    if k == 0 then 0.0 else Dot(l, n, i, j, k - 1) + At(l, n, n, i, k - 1) * At(l, n, n, j, k - 1)
  }

  /** Entry (i, j) comes before (row, column) in the order the entries are filled. */
  predicate Before(i: nat, j: nat, row: nat, column: nat) {
    i < row || (i == row && j < column)
  }

  /** The entries filled before (row, column) reproduce the matrix, with a positive diagonal. */
  ghost predicate Solved(l: seq<real>, a: seq<real>, n: nat, row: nat, column: nat) {
    && |l| == n * n && |a| == n * n
    && forall i: nat, j: nat | i < n && j <= i && Before(i, j, row, column) ::
         && Dot(l, n, i, j, j + 1) == At(a, n, n, i, j)
         && (j == i ==> At(l, n, n, i, i) > 0.0)
  }

  ghost predicate ZeroFrom(l: seq<real>, n: nat, row: nat, column: nat) {
    && |l| == n * n
    && forall i: nat, j: nat | i < n && j < n && (j > i || !Before(i, j, row, column)) :: At(l, n, n, i, j) == 0.0
  }

  /** Lower triangular, positive diagonal, and L times its transpose gives every entry of the lower
      triangle. */
  ghost predicate IsFactor(l: seq<real>, a: seq<real>, n: nat) {
    Solved(l, a, n, n, 0) && ZeroFrom(l, n, n, 0)
  }

  /** The refusal bound on a squared pivot: 16 n epsilons of the larger of the entry and what was
      already subtracted from it. */
  function RoundoffBound(n: nat, entry': real, product: real): real {
    16.0 * EPSILON * n as real * Max(Abs(entry'), Abs(product))
  }

  /** Pivot `i` is above the bound. */
  ghost predicate Clear(l: seq<real>, a: seq<real>, n: nat, i: nat)
    requires |l| == n * n && |a| == n * n && i < n
  {
    At(l, n, n, i, i) * At(l, n, n, i, i) > RoundoffBound(n, At(a, n, n, i, i), Dot(l, n, i, i, i))
  }

  ghost predicate AllClear(l: seq<real>, a: seq<real>, n: nat, rows: nat)
    requires |l| == n * n && |a| == n * n && rows <= n
  {
    forall i: nat | i < rows :: Clear(l, a, n, i)
  }

  function RelativeDifference(lower: real, upper: real): real {
    var scale := Max(Abs(lower), Abs(upper));
    if scale == 0.0 then 0.0 else Abs(lower / scale - upper / scale)
  }

  /** Every mirrored pair within the relative tolerance. */
  ghost predicate Symmetric(a: seq<real>, n: nat, tolerance: real)
    requires |a| == n * n
  {
    forall i: nat, j: nat | j < i < n :: RelativeDifference(At(a, n, n, i, j), At(a, n, n, j, i)) <= tolerance
  }

  // ---- there is only one ------------------------------------------------------------------

  lemma {:induction false} DotAgrees(l: seq<real>, m: seq<real>, n: nat, i: nat, j: nat, k: nat)
    requires |l| == n * n && |m| == n * n && i < n && j < n && k <= n
    requires forall x: nat | x < k :: At(l, n, n, i, x) == At(m, n, n, i, x) && At(l, n, n, j, x) == At(m, n, n, j, x)
    ensures Dot(l, n, i, j, k) == Dot(m, n, i, j, k)
  {
    hide At;
    if k > 0 {
      DotAgrees(l, m, n, i, j, k - 1);
    }
  }

  /** One unknown at a time, each entry is forced by the entries before it. */
  lemma {:induction false} EntryIsForced(l: seq<real>, m: seq<real>, a: seq<real>, n: nat, i: nat, j: nat)
    requires j <= i < n && Solved(l, a, n, i, j + 1) && Solved(m, a, n, i, j + 1)
    ensures At(l, n, n, i, j) == At(m, n, n, i, j)
    decreases i, j
  {
    hide At;
    forall x: nat | x < j
      ensures At(l, n, n, i, x) == At(m, n, n, i, x) && At(l, n, n, j, x) == At(m, n, n, j, x)
    {
      SolvedEarlier(l, a, n, i, j + 1, i, x + 1);
      SolvedEarlier(m, a, n, i, j + 1, i, x + 1);
      EntryIsForced(l, m, a, n, i, x);
      SolvedEarlier(l, a, n, i, j + 1, j, x + 1);
      SolvedEarlier(m, a, n, i, j + 1, j, x + 1);
      EntryIsForced(l, m, a, n, j, x);
    }
    DotAgrees(l, m, n, i, j, j);
    var x, y := At(l, n, n, i, j), At(m, n, n, i, j);
    var p, q := At(l, n, n, j, j), At(m, n, n, j, j);
    assert Before(i, j, i, j + 1) && Before(j, j, i, j + 1);
    assert Dot(l, n, i, j, j + 1) == At(a, n, n, i, j) == Dot(m, n, i, j, j + 1);
    assert x * p == y * q;
    if j < i {
      SolvedEarlier(l, a, n, i, j + 1, j, j + 1);
      SolvedEarlier(m, a, n, i, j + 1, j, j + 1);
      EntryIsForced(l, m, a, n, j, j);
      assert p > 0.0;
      SameQuotient(x, y, p);
    } else {
      SameRoot(x, y);
    }
  }

  lemma SolvedEarlier(l: seq<real>, a: seq<real>, n: nat, row: nat, column: nat, row': nat, column': nat)
    requires Solved(l, a, n, row, column) && (row' < row || (row' == row && column' <= column))
    ensures Solved(l, a, n, row', column')
  {
    hide At, Dot;
  }

  lemma SameQuotient(x: real, y: real, p: real)
    requires p > 0.0 && x * p == y * p
    ensures x == y
  {
    assert (x - y) * p == 0.0;
  }

  lemma SameRoot(x: real, y: real)
    requires x > 0.0 && y > 0.0 && x * x == y * y
    ensures x == y
  {
    assert (x - y) * (x + y) == 0.0;
  }

  /** A matrix has at most one factorisation. */
  lemma FactorIsUnique(l: seq<real>, m: seq<real>, a: seq<real>, n: nat)
    requires IsFactor(l, a, n) && IsFactor(m, a, n)
    ensures l == m
  {
    forall i: nat, j: nat | i < n && j < n
      ensures At(l, n, n, i, j) == At(m, n, n, i, j)
    {
      if j <= i {
        SolvedEarlier(l, a, n, n, 0, i, j + 1);
        SolvedEarlier(m, a, n, n, 0, i, j + 1);
        EntryIsForced(l, m, a, n, i, j);
      }
    }
    forall k | 0 <= k < n * n
      ensures l[k] == m[k]
    {
      Coordinates(n, n, k);
      assert At(l, n, n, k / n, k % n) == At(m, n, n, k / n, k % n);
    }
  }

  // ---- scaling ----------------------------------------------------------------------------

  function Times(l: seq<real>, c: real): (r: seq<real>)
    ensures |r| == |l| && forall k | 0 <= k < |l| :: r[k] == l[k] * c
  {
    seq(|l|, k requires 0 <= k < |l| => l[k] * c)
  }

  lemma {:induction false} DotScales(l: seq<real>, n: nat, root: real, i: nat, j: nat, k: nat)
    requires |l| == n * n && i < n && j < n && k <= n
    ensures Dot(Times(l, root), n, i, j, k) == root * root * Dot(l, n, i, j, k)
  {
    hide At, Times;
    if k > 0 {
      DotScales(l, n, root, i, j, k - 1);
      AtScales(l, n, root, i, k - 1);
      AtScales(l, n, root, j, k - 1);
      DotStepScales(root, At(l, n, n, i, k - 1), At(l, n, n, j, k - 1), Dot(l, n, i, j, k - 1),
                    Dot(Times(l, root), n, i, j, k - 1));
    }
  }

  lemma DotStepScales(c: real, x: real, y: real, d: real, d': real)
    requires d' == c * c * d
    ensures d' + (x * c) * (y * c) == c * c * (d + x * y)
  {
    Distribute(c, x, y, d);
  }

  lemma Distribute(c: real, x: real, y: real, d: real)
    ensures c * c * d + (x * c) * (y * c) == c * c * (d + x * y)
  {
    assert (x * c) * (y * c) == c * c * (x * y);
  }

  lemma AtScales(l: seq<real>, n: nat, c: real, i: nat, j: nat)
    requires |l| == n * n && i < n && j < n
    ensures At(Times(l, c), n, n, i, j) == At(l, n, n, i, j) * c
  {
    IxInside(n, n, i, j);
  }

  /** A factorisation of the scaled matrix, rescaled, factors the matrix. */
  lemma SolvedScales(l: seq<real>, a: seq<real>, n: nat, row: nat, column: nat, scale: real, root: real)
    requires scale > 0.0 && root > 0.0 && root * root == scale
    requires |a| == n * n && Solved(l, Times(a, 1.0 / scale), n, row, column)
    ensures Solved(Times(l, root), a, n, row, column)
  {
    hide At, Dot;
    var u, b := Times(l, root), Times(a, 1.0 / scale);
    forall i: nat, j: nat | i < n && j <= i && Before(i, j, row, column)
      ensures Dot(u, n, i, j, j + 1) == At(a, n, n, i, j)
      ensures j == i ==> At(u, n, n, i, i) > 0.0
    {
      assert Dot(l, n, i, j, j + 1) == At(b, n, n, i, j);
      DotScales(l, n, root, i, j, j + 1);
      AtScales(a, n, 1.0 / scale, i, j);
      Cancel(scale, At(a, n, n, i, j));
      AtScales(l, n, root, i, j);
      if j == i {
        Positive(At(l, n, n, i, i), root);
      }
    }
  }

  lemma Cancel(scale: real, x: real)
    requires scale != 0.0
    ensures scale * (x * (1.0 / scale)) == x
  {
    assert scale * (1.0 / scale) == 1.0;
    assert scale * (x * (1.0 / scale)) == x * (scale * (1.0 / scale));
  }

  lemma Positive(x: real, y: real)
    requires x > 0.0 && y > 0.0
    ensures x * y > 0.0
  {
  }

  lemma ZeroScales(l: seq<real>, n: nat, row: nat, column: nat, root: real)
    requires ZeroFrom(l, n, row, column)
    ensures ZeroFrom(Times(l, root), n, row, column)
  {
    hide At;
    forall i: nat, j: nat | i < n && j < n && (j > i || !Before(i, j, row, column))
      ensures At(Times(l, root), n, n, i, j) == 0.0
    {
      AtScales(l, n, root, i, j);
    }
  }

  lemma BoundScales(n: nat, scale: real, x: real, y: real, x': real, y': real)
    requires scale > 0.0 && x' == scale * x && y' == scale * y
    ensures RoundoffBound(n, x', y') == scale * RoundoffBound(n, x, y)
  {
    AbsScales(scale, x, x');
    AbsScales(scale, y, y');
    MaxScales(scale, Abs(x), Abs(y), Abs(x'), Abs(y'));
    var c, m := 16.0 * EPSILON * n as real, Max(Abs(x), Abs(y));
    assert c * (scale * m) == scale * (c * m);
  }

  lemma AbsScales(scale: real, x: real, x': real)
    requires scale > 0.0 && x' == scale * x
    ensures Abs(x') == scale * Abs(x)
  {
    if x < 0.0 {
      Positive(scale, -x);
      assert scale * x == -(scale * -x);
    } else if x > 0.0 {
      Positive(scale, x);
    }
  }

  lemma MaxScales(scale: real, x: real, y: real, x': real, y': real)
    requires scale > 0.0 && x' == scale * x && y' == scale * y
    ensures Max(x', y') == scale * Max(x, y)
  {
    ScaledOrder(scale, x, y);
    ScaledOrder(scale, y, x);
  }

  lemma ClearScales(l: seq<real>, a: seq<real>, n: nat, i: nat, scale: real, root: real)
    requires |l| == n * n && |a| == n * n && i < n
    requires scale > 0.0 && root * root == scale
    ensures Clear(l, Times(a, 1.0 / scale), n, i) <==> Clear(Times(l, root), a, n, i)
  {
    hide At, Dot, RoundoffBound;
    var x, entry', product := At(l, n, n, i, i), At(Times(a, 1.0 / scale), n, n, i, i), Dot(l, n, i, i, i);
    AtScales(l, n, root, i, i);
    AtScales(a, n, 1.0 / scale, i, i);
    DotScales(l, n, root, i, i, i);
    Cancel(scale, At(a, n, n, i, i));
    assert At(a, n, n, i, i) == scale * entry';
    BoundScales(n, scale, entry', product, At(a, n, n, i, i), Dot(Times(l, root), n, i, i, i));
    assert (x * root) * (x * root) == scale * (x * x) by {
      Distribute(root, x, x, 0.0);
    }
    var bound := RoundoffBound(n, entry', product);
    var u := Times(l, root);
    assert At(u, n, n, i, i) * At(u, n, n, i, i) == scale * (x * x);
    ScaledOrder(scale, x * x, bound);
  }

  lemma ScaledOrder(scale: real, x: real, y: real)
    requires scale > 0.0
    ensures x > y <==> scale * x > scale * y
  {
    if x > y {
      Positive(scale, x - y);
    } else {
      NotPositive(scale, y - x);
    }
  }

  lemma NotPositive(x: real, y: real)
    requires x > 0.0 && y >= 0.0
    ensures x * y >= 0.0
  {
  }

  // ---- one step of filling ----------------------------------------------------------------

  function Put(l: seq<real>, n: nat, row: nat, column: nat, v: real): (r: seq<real>)
    requires |l| == n * n && row < n && column < n
    ensures |r| == |l|
  {
    IxInside(n, n, row, column);
    l[Ix(n, row, column) := v]
  }

  /** Writing entry (row, column) leaves everything before it alone. */
  lemma {:induction false} DotKept(l: seq<real>, n: nat, row: nat, column: nat, v: real, i: nat, j: nat, k: nat)
    requires |l| == n * n && row < n && column <= row && i < n && j <= i && k <= n
    requires (i != row && j != row) || k <= column
    ensures Dot(Put(l, n, row, column, v), n, i, j, k) == Dot(l, n, i, j, k)
  {
    hide At, Put;
    if k > 0 {
      DotKept(l, n, row, column, v, i, j, k - 1);
      AtKept(l, n, row, column, v, i, k - 1);
      AtKept(l, n, row, column, v, j, k - 1);
    }
  }

  lemma AtKept(l: seq<real>, n: nat, row: nat, column: nat, v: real, i: nat, j: nat)
    requires |l| == n * n && row < n && column < n && i < n && j < n
    ensures At(Put(l, n, row, column, v), n, n, i, j) == if i == row && j == column then v else At(l, n, n, i, j)
  {
    IxInside(n, n, row, column);
    IxInside(n, n, i, j);
    if Ix(n, i, j) == Ix(n, row, column) {
      IxDistinct(n, i, j, row, column);
    }
  }

  /** The entry that makes the next equation true. */
  ghost predicate Completes(l: seq<real>, b: seq<real>, n: nat, row: nat, column: nat, v: real)
    requires |l| == n * n && |b| == n * n && column <= row < n
  {
    var pivot := At(b, n, n, row, column) - Dot(l, n, row, column, column);
    if row == column then v > 0.0 && v * v == pivot else v * At(l, n, n, column, column) == pivot
  }

  lemma Fill(l: seq<real>, b: seq<real>, n: nat, row: nat, column: nat, v: real)
    requires column <= row < n && Solved(l, b, n, row, column) && ZeroFrom(l, n, row, column)
    requires Completes(l, b, n, row, column, v)
    ensures var l' := Put(l, n, row, column, v);
      && Solved(l', b, n, row, column + 1) && ZeroFrom(l', n, row, column + 1)
      && (forall i: nat, j: nat, k: nat | i < row && j <= i && k <= n :: Dot(l', n, i, j, k) == Dot(l, n, i, j, k))
      && (forall i: nat | i < row :: At(l', n, n, i, i) == At(l, n, n, i, i))
      && Dot(l', n, row, column, column) == Dot(l, n, row, column, column)
  {
    hide At;
    var l' := Put(l, n, row, column, v);
    forall i: nat, j: nat, k: nat | i < row && j <= i && k <= n
      ensures Dot(l', n, i, j, k) == Dot(l, n, i, j, k)
    {
      DotKept(l, n, row, column, v, i, j, k);
    }
    DotKept(l, n, row, column, v, row, column, column);
    forall i: nat, j: nat | i < n && j <= i && Before(i, j, row, column + 1)
      ensures Dot(l', n, i, j, j + 1) == At(b, n, n, i, j)
      ensures j == i ==> At(l', n, n, i, i) > 0.0
    {
      AtKept(l, n, row, column, v, i, i);
      if i == row && j == column {
        AtKept(l, n, row, column, v, row, column);
        AtKept(l, n, row, column, v, column, column);
      } else {
        assert Before(i, j, row, column);
        DotKept(l, n, row, column, v, i, j, j + 1);
      }
    }
    forall i: nat, j: nat | i < n && j < n && (j > i || !Before(i, j, row, column + 1))
      ensures At(l', n, n, i, j) == 0.0
    {
      AtKept(l, n, row, column, v, i, j);
    }
    forall i: nat | i < row
      ensures At(l', n, n, i, i) == At(l, n, n, i, i)
    {
      AtKept(l, n, row, column, v, i, i);
    }
  }

  // ---- the algorithm ----------------------------------------------------------------------

  /** What acceptance promises, and what a refusal denies every candidate. */
  ghost predicate Accepted(l: seq<real>, a: seq<real>, n: nat) {
    IsFactor(l, a, n) && AllClear(l, a, n, n)
  }

  method IsSymmetric(a: seq<real>, n: nat, tolerance: real) returns (ok: bool)
    requires |a| == n * n
    ensures ok == Symmetric(a, n, tolerance)
  {
    hide RelativeDifference;
    for row := 0 to n
      invariant forall i: nat, j: nat | j < i < row :: RelativeDifference(At(a, n, n, i, j), At(a, n, n, j, i)) <= tolerance
    {
      for column := 0 to row
        invariant forall i: nat, j: nat | j < i < row :: RelativeDifference(At(a, n, n, i, j), At(a, n, n, j, i)) <= tolerance
        invariant forall j: nat | j < column :: RelativeDifference(At(a, n, n, row, j), At(a, n, n, j, row)) <= tolerance
      {
        IxInside(n, n, row, column);
        IxInside(n, n, column, row);
        if RelativeDifference(a[row * n + column], a[column * n + row]) > tolerance {
          assert RelativeDifference(At(a, n, n, row, column), At(a, n, n, column, row)) > tolerance;
          return false;
        }
      }
    }
    ok := true;
  }

  lemma {:induction false} TermsSum(l: seq<real>, n: nat, i: nat, j: nat, k: nat, terms: seq<real>)
    requires |l| == n * n && i < n && j < n && k <= n && |terms| == k
    requires forall x: nat | x < k :: terms[x] == At(l, n, n, i, x) * At(l, n, n, j, x)
    ensures Sum(terms) == Dot(l, n, i, j, k)
  {
    hide At;
    if k > 0 {
      TermsSum(l, n, i, j, k - 1, terms[..k - 1]);
    }
  }

  /** A clear pivot of any factorisation is the pivot the algorithm meets, once rescaled. */
  lemma PivotIsForced(l: seq<real>, a: seq<real>, n: nat, row: nat, scale: real, root: real, m: seq<real>)
    requires scale > 0.0 && root > 0.0 && root * root == scale && row < n && |a| == n * n
    requires Solved(l, Times(a, 1.0 / scale), n, row, row) && Accepted(m, a, n)
    ensures var entry', product := At(Times(a, 1.0 / scale), n, n, row, row), Dot(l, n, row, row, row);
      entry' - product > RoundoffBound(n, entry', product)
  {
    hide At, Dot, RoundoffBound;
    var u := Times(l, root);
    SolvedScales(l, a, n, row, row, scale, root);
    forall x: nat | x < row
      ensures At(u, n, n, row, x) == At(m, n, n, row, x)
    {
      SolvedEarlier(u, a, n, row, row, row, x + 1);
      SolvedEarlier(m, a, n, n, 0, row, x + 1);
      EntryIsForced(u, m, a, n, row, x);
    }
    DotAgrees(u, m, n, row, row, row);
    var entry', product := At(Times(a, 1.0 / scale), n, n, row, row), Dot(l, n, row, row, row);
    AtScales(a, n, 1.0 / scale, row, row);
    DotScales(l, n, root, row, row, row);
    Cancel(scale, At(a, n, n, row, row));
    assert At(a, n, n, row, row) == scale * entry';
    assert Dot(m, n, row, row, row) == scale * product;
    BoundScales(n, scale, entry', product, At(a, n, n, row, row), Dot(m, n, row, row, row));
    assert Clear(m, a, n, row);
    var p := At(m, n, n, row, row);
    assert p * p == scale * entry' - scale * product by {
      LastTerm(m, a, n, row);
    }
    assert scale * entry' - scale * product == scale * (entry' - product);
    ScaledOrder(scale, entry' - product, RoundoffBound(n, entry', product));
  }

  lemma LastTerm(m: seq<real>, a: seq<real>, n: nat, row: nat)
    requires IsFactor(m, a, n) && row < n
    ensures At(m, n, n, row, row) * At(m, n, n, row, row) == At(a, n, n, row, row) - Dot(m, n, row, row, row)
  {
    hide At;
    assert Before(row, row, n, 0);
    assert Dot(m, n, row, row, row + 1) == At(a, n, n, row, row);
  }

  lemma ZeroHasNoFactor(a: seq<real>, n: nat, m: seq<real>)
    requires n > 0 && |a| == n * n && forall k | 0 <= k < |a| :: Abs(a[k]) <= 0.0
    ensures !IsFactor(m, a, n)
  {
    hide At;
    if IsFactor(m, a, n) {
      LastTerm(m, a, n, 0);
      AtIs(a, n, 0, 0);
      assert Dot(m, n, 0, 0, 0) == 0.0;
      var p := At(m, n, n, 0, 0);
      assert p * p == a[0];
      FirstPositive(m, a, n);
      SquarePositive(p, a[0]);
      assert false;
    }
  }

  lemma SquarePositive(p: real, q: real)
    requires p > 0.0 && q == p * p
    ensures q > 0.0
  {
    Product(p, p, q);
  }

  lemma Product(x: real, y: real, z: real)
    requires x > 0.0 && y > 0.0 && z == x * y
    ensures z > 0.0
  {
  }

  lemma FirstPositive(m: seq<real>, a: seq<real>, n: nat)
    requires IsFactor(m, a, n) && n > 0
    ensures At(m, n, n, 0, 0) > 0.0
  {
    hide At, Dot;
    assert Before(0, 0, n, 0);
    assert Dot(m, n, 0, 0, 1) == At(a, n, n, 0, 0);
  }

  /** `factor`: fills the lower triangle in place, row by row, on the matrix scaled by its largest
      entry. A result is a factorisation with every squared pivot above the roundoff bound; a refusal
      means the matrix is not symmetric within the tolerance or no such factorisation exists. */
  method Factor(a: seq<real>, n: nat, tolerance: real, sqrt: real -> real) returns (r: Option<seq<real>>)
    requires n > 0 && |a| == n * n && IsRoot(sqrt)
    ensures r.Some? ==> Symmetric(a, n, tolerance) && Accepted(r.value, a, n)
    ensures r.None? ==> !Symmetric(a, n, tolerance) || forall m :: !Accepted(m, a, n)
  {
    var symmetric := IsSymmetric(a, n, tolerance);
    if !symmetric {
      return None;
    }
    var scale := LargestMagnitude(a);
    if scale == 0.0 {
      forall m
        ensures !Accepted(m, a, n)
      {
        ZeroHasNoFactor(a, n, m);
      }
      return None;
    }
    var lower := new real[n * n](_ => 0.0);
    var filled := FillLower(a, n, scale, sqrt, lower);
    if !filled {
      return None;
    }
    ghost var l := lower[..];
    var rootScale := sqrt(scale);
    RootPositive(sqrt, scale);
    Rescale(lower, rootScale);
    assert lower[..] == Times(l, rootScale);
    SolvedScales(l, a, n, n, 0, scale, rootScale);
    ZeroScales(l, n, n, 0, rootScale);
    forall i: nat | i < n
      ensures Clear(lower[..], a, n, i)
    {
      ClearScales(l, a, n, i, scale, rootScale);
    }
    r := Some(lower[..]);
  }

  lemma RootPositive(sqrt: real -> real, x: real)
    requires IsRoot(sqrt) && x > 0.0
    ensures sqrt(x) > 0.0 && sqrt(x) * sqrt(x) == x
  {
  }

  method Rescale(values: array<real>, c: real)
    modifies values
    ensures values[..] == Times(old(values[..]), c)
  {
    for i := 0 to values.Length
      invariant forall k | 0 <= k < i :: values[k] == old(values[k]) * c
      invariant forall k | i <= k < values.Length :: values[k] == old(values[k])
    {
      values[i] := values[i] * c;
    }
    ghost var scaled := Times(old(values[..]), c);
    forall k | 0 <= k < values.Length
      ensures values[..][k] == scaled[k]
    {
    }
  }

  /** The nested loops over the lower triangle. */
  method FillLower(a: seq<real>, n: nat, scale: real, sqrt: real -> real, lower: array<real>) returns (ok: bool)
    requires n > 0 && |a| == n * n && scale > 0.0 && IsRoot(sqrt)
    requires lower.Length == n * n && forall k | 0 <= k < n * n :: lower[k] == 0.0
    modifies lower
    ensures ok ==> var b := Times(a, 1.0 / scale);
      Solved(lower[..], b, n, n, 0) && ZeroFrom(lower[..], n, n, 0) && AllClear(lower[..], b, n, n)
    ensures !ok ==> forall m :: !Accepted(m, a, n)
  {
    hide At, Dot, RoundoffBound, Accepted, Solved, ZeroFrom, Clear, Completes, IsRoot;
    ghost var b := Times(a, 1.0 / scale);
    NothingFilled(lower[..], b, n);
    for row := 0 to n
      invariant lower.Length == n * n
      invariant Solved(lower[..], b, n, row, 0) && ZeroFrom(lower[..], n, row, 0)
      invariant AllClear(lower[..], b, n, row)
    {
      for column := 0 to row + 1
        invariant lower.Length == n * n
        invariant Solved(lower[..], b, n, row, column) && ZeroFrom(lower[..], n, row, column)
        invariant AllClear(lower[..], b, n, if column > row then row + 1 else row)
      {
        var good := FillEntry(a, n, scale, sqrt, lower, row, column);
        if !good {
          return false;
        }
      }
      RowDone(lower[..], b, n, row);
    }
    ok := true;
  }

  lemma NothingFilled(l: seq<real>, b: seq<real>, n: nat)
    requires |l| == n * n && |b| == n * n && forall k | 0 <= k < n * n :: l[k] == 0.0
    ensures Solved(l, b, n, 0, 0) && ZeroFrom(l, n, 0, 0) && AllClear(l, b, n, 0)
  {
    forall i: nat, j: nat | i < n && j < n
      ensures At(l, n, n, i, j) == 0.0
    {
      IxInside(n, n, i, j);
    }
  }

  lemma RowDone(l: seq<real>, b: seq<real>, n: nat, row: nat)
    requires Solved(l, b, n, row, row + 1) && ZeroFrom(l, n, row, row + 1)
    ensures Solved(l, b, n, row + 1, 0) && ZeroFrom(l, n, row + 1, 0)
  {
    hide At, Dot;
  }

  /** One entry of the lower triangle. */
  method FillEntry(a: seq<real>, n: nat, scale: real, sqrt: real -> real, lower: array<real>, row: nat, column: nat)
    returns (ok: bool)
    requires |a| == n * n && scale > 0.0 && IsRoot(sqrt) && column <= row < n && lower.Length == n * n
    requires Solved(lower[..], Times(a, 1.0 / scale), n, row, column) && ZeroFrom(lower[..], n, row, column)
    requires AllClear(lower[..], Times(a, 1.0 / scale), n, row)
    modifies lower
    ensures ok ==> var b := Times(a, 1.0 / scale);
      && Solved(lower[..], b, n, row, column + 1) && ZeroFrom(lower[..], n, row, column + 1)
      && AllClear(lower[..], b, n, if column == row then row + 1 else row)
    ensures !ok ==> forall m :: !Accepted(m, a, n)
  {
    hide At, Dot, RoundoffBound, Solved, ZeroFrom, Accepted, AllClear, IsRoot, Completes, Put;
    ghost var b := Times(a, 1.0 / scale);
    ghost var l := lower[..];
    var product := EntryProduct(lower, n, row, column);
    IxInside(n, n, row, column);
    IxInside(n, n, column, column);
    var scaledEntry := a[row * n + column] / scale;
    EntryScales(a, n, scale, row, column);
    var pivot := scaledEntry - product;
    var v: real;
    if row == column {
      var roundoffBound := RoundoffBound(n, scaledEntry, product);
      if pivot <= roundoffBound {
        RefusalIsDeserved(l, a, n, row, scale, sqrt);
        return false;
      }
      BoundNonnegative(n, scaledEntry, product);
      RootPositive(sqrt, pivot);
      v := sqrt(pivot);
    } else {
      DiagonalPositive(l, b, n, row, column);
      AtIs(l, n, column, column);
      v := pivot / lower[column * n + column];
      QuotientTimes(pivot, At(l, n, n, column, column));
    }
    CompletesBy(l, b, n, row, column, v, pivot);
    lower[row * n + column] := v;
    PutIs(l, n, row, column, v);
    assert lower[..] == Put(l, n, row, column, v);
    Fill(l, b, n, row, column, v);
    ClearKept(l, b, n, row, column, v);
    ok := true;
  }

  lemma AtIs(l: seq<real>, n: nat, i: nat, j: nat)
    requires |l| == n * n && i < n && j < n
    ensures i * n + j < n * n && At(l, n, n, i, j) == l[i * n + j]
  {
    IxInside(n, n, i, j);
  }

  lemma PutIs(l: seq<real>, n: nat, i: nat, j: nat, v: real)
    requires |l| == n * n && i < n && j < n
    ensures i * n + j < n * n && Put(l, n, i, j, v) == l[i * n + j := v]
  {
    IxInside(n, n, i, j);
  }

  lemma EntryScales(a: seq<real>, n: nat, scale: real, i: nat, j: nat)
    requires |a| == n * n && i < n && j < n && scale > 0.0
    ensures i * n + j < n * n && At(Times(a, 1.0 / scale), n, n, i, j) == a[i * n + j] / scale
  {
    hide Times;
    AtIs(a, n, i, j);
    AtScales(a, n, 1.0 / scale, i, j);
    DivisionIsProduct(a[i * n + j], scale);
  }

  lemma CompletesBy(l: seq<real>, b: seq<real>, n: nat, row: nat, column: nat, v: real, pivot: real)
    requires |l| == n * n && |b| == n * n && column <= row < n
    requires pivot == At(b, n, n, row, column) - Dot(l, n, row, column, column)
    requires if row == column then v > 0.0 && v * v == pivot else v * At(l, n, n, column, column) == pivot
    ensures Completes(l, b, n, row, column, v)
  {
  }

  method EntryProduct(lower: array<real>, n: nat, row: nat, column: nat) returns (product: real)
    requires column <= row < n && lower.Length == n * n
    ensures product == Dot(lower[..], n, row, column, column)
  {
    var terms: seq<real> := [];
    for k := 0 to column
      invariant |terms| == k
      invariant forall x: nat | x < k :: terms[x] == At(lower[..], n, n, row, x) * At(lower[..], n, n, column, x)
    {
      IxInside(n, n, row, k);
      IxInside(n, n, column, k);
      assert At(lower[..], n, n, row, k) == lower[row * n + k] && At(lower[..], n, n, column, k) == lower[column * n + k];
      terms := terms + [lower[row * n + k] * lower[column * n + k]];
    }
    product := CompensatedSum(terms);
    TermsSum(lower[..], n, row, column, column, terms);
  }

  lemma DivisionIsProduct(x: real, y: real)
    requires y != 0.0
    ensures x / y == x * (1.0 / y)
  {
  }

  lemma QuotientTimes(x: real, y: real)
    requires y != 0.0
    ensures (x / y) * y == x
  {
  }

  lemma BoundNonnegative(n: nat, x: real, y: real)
    ensures RoundoffBound(n, x, y) >= 0.0
  {
    var m := Max(Abs(x), Abs(y));
    assert 16.0 * EPSILON * n as real >= 0.0;
    if 16.0 * EPSILON * n as real > 0.0 {
      NotPositive(16.0 * EPSILON * n as real, m);
    }
  }

  lemma DiagonalPositive(l: seq<real>, b: seq<real>, n: nat, row: nat, column: nat)
    requires Solved(l, b, n, row, column) && column < row < n
    ensures At(l, n, n, column, column) > 0.0
  {
    hide At, Dot;
    assert Before(column, column, row, column);
    assert Dot(l, n, column, column, column + 1) == At(b, n, n, column, column);
  }

  lemma RefusalIsDeserved(l: seq<real>, a: seq<real>, n: nat, row: nat, scale: real, sqrt: real -> real)
    requires scale > 0.0 && IsRoot(sqrt) && row < n && |a| == n * n
    requires Solved(l, Times(a, 1.0 / scale), n, row, row)
    requires var entry', product := At(Times(a, 1.0 / scale), n, n, row, row), Dot(l, n, row, row, row);
      entry' - product <= RoundoffBound(n, entry', product)
    ensures forall m :: !Accepted(m, a, n)
  {
    hide At, Dot, RoundoffBound, Solved, Accepted;
    RootPositive(sqrt, scale);
    forall m
      ensures !Accepted(m, a, n)
    {
      if Accepted(m, a, n) {
        PivotIsForced(l, a, n, row, scale, sqrt(scale), m);
      }
    }
  }

  /** Filling an entry keeps the pivots above the bound, its own included. */
  lemma ClearKept(l: seq<real>, b: seq<real>, n: nat, row: nat, column: nat, v: real)
    requires column <= row < n && |l| == n * n && |b| == n * n
    requires Solved(l, b, n, row, column) && ZeroFrom(l, n, row, column)
    requires Completes(l, b, n, row, column, v) && AllClear(l, b, n, row)
    requires row == column ==> v * v > RoundoffBound(n, At(b, n, n, row, row), Dot(l, n, row, row, row))
    ensures AllClear(Put(l, n, row, column, v), b, n, if column == row then row + 1 else row)
  {
    hide At, Dot, RoundoffBound, Solved, ZeroFrom;
    Fill(l, b, n, row, column, v);
    var l' := Put(l, n, row, column, v);
    forall i: nat | i < row
      ensures Clear(l', b, n, i)
    {
      assert Clear(l, b, n, i);
      assert Dot(l', n, i, i, i) == Dot(l, n, i, i, i);
    }
    if column == row {
      AtKept(l, n, row, column, v, row, row);
    }
  }
}
