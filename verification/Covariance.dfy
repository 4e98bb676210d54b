/** `covariance` of src/matrix.rs over exact reals: anchoring, scaling and rescaling change nothing, the
    result is the textbook covariance matrix. Anchoring at the first observation, dividing by the largest
    magnitude and centring with a compensated sum are there for the sake of rounding; over exact reals they
    cancel, and the lemmas here say so step by step for one column, one pair of columns and the whole
    matrix. */
module Covariance {
  import opened Prelude
  import opened Matrix

  // ---- the textbook definition ------------------------------------------------------------

  function Column(a: seq<real>, observations: nat, variables: nat, v: nat): (c: seq<real>)
    requires |a| == observations * variables && v < variables
    ensures |c| == observations
    ensures forall o: nat | o < observations :: c[o] == At(a, observations, variables, o, v)
  {
    seq(observations, o requires 0 <= o < observations => At(a, observations, variables, o, v))
  }

  function Mean(c: seq<real>): real
    requires |c| > 0
  {
    Sum(c) / |c| as real
  }

  function Deviations(c: seq<real>): (d: seq<real>)
    requires |c| > 0
    ensures |d| == |c| && forall o | 0 <= o < |c| :: d[o] == c[o] - Mean(c)
  {
    seq(|c|, o requires 0 <= o < |c| => c[o] - Mean(c))
  }

  function Products(x: seq<real>, y: seq<real>): (p: seq<real>)
    requires |x| == |y|
    ensures |p| == |x| && forall o | 0 <= o < |x| :: p[o] == x[o] * y[o]
  {
    seq(|x|, o requires 0 <= o < |x| => x[o] * y[o])
  }

  /** The covariance of two columns with `ddof` degrees of freedom given up. */
  function Cov(x: seq<real>, y: seq<real>, ddof: nat): real
    requires |x| == |y| && |x| > ddof
  {
    Sum(Products(Deviations(x), Deviations(y))) / (|x| - ddof) as real
  }

  // ---- sums -------------------------------------------------------------------------------

  /** An entry anchored and scaled. */
  function Affine(x: real, origin: real, scale: real): real
    requires scale != 0.0
  {
    (x - origin) / scale
  }

  /** What `n` such entries add up to. */
  function AffineSum(sum: real, n: nat, origin: real, scale: real): real
    requires scale != 0.0
  {
    (sum - n as real * origin) / scale
  }

  lemma {:induction false} SumAffine(c: seq<real>, s: seq<real>, origin: real, scale: real)
    requires |s| == |c| && scale != 0.0 && forall o | 0 <= o < |c| :: s[o] == Affine(c[o], origin, scale)
    ensures Sum(s) == AffineSum(Sum(c), |c|, origin, scale)
  {
    hide Affine, AffineSum;
    if |c| > 0 {
      var k := |c| - 1;
      SumAffine(c[..k], s[..k], origin, scale);
      AffineStep(Sum(c[..k]), c[k], k, origin, scale);
    } else {
      NothingAdded(origin, scale);
    }
  }

  lemma NothingAdded(origin: real, scale: real)
    requires scale != 0.0
    ensures AffineSum(0.0, 0, origin, scale) == 0.0
  {
  }

  lemma AffineStep(sum: real, x: real, n: nat, origin: real, scale: real)
    requires scale != 0.0
    ensures AffineSum(sum, n, origin, scale) + Affine(x, origin, scale) == AffineSum(sum + x, n + 1, origin, scale)
  {
    assert (n + 1) as real * origin == n as real * origin + origin;
    AddFractions(sum - n as real * origin, x - origin, scale);
  }

  lemma AddFractions(x: real, y: real, z: real)
    requires z != 0.0
    ensures x / z + y / z == (x + y) / z
  {
  }

  lemma {:induction false} SumScaled(p: seq<real>, q: seq<real>, c: real)
    requires |p| == |q| && forall o | 0 <= o < |p| :: q[o] == c * p[o]
    ensures Sum(q) == c * Sum(p)
  {
    if |p| > 0 {
      var k := |p| - 1;
      SumScaled(p[..k], q[..k], c);
      assert c * (Sum(p[..k]) + p[k]) == c * Sum(p[..k]) + c * p[k];
    }
  }

  // ---- centring ---------------------------------------------------------------------------

  /** A column anchored at `origin`, divided by `scale` and centred is its deviations over `scale`. */
  lemma AnchoringIsCentring(c: seq<real>, s: seq<real>, origin: real, scale: real, o: nat)
    requires |c| > 0 && |s| == |c| && o < |c| && scale != 0.0
    requires forall k | 0 <= k < |c| :: s[k] == (c[k] - origin) / scale
    ensures (s[o] - Sum(s) / |c| as real) * scale == Deviations(c)[o]
  {
    hide Sum, Deviations;
    SumAffine(c, s, origin, scale);
    DeviationIs(c, o);
    Rescaled(c[o], Sum(c), |c| as real, origin, scale, s[o], Sum(s));
  }

  lemma DeviationIs(c: seq<real>, o: nat)
    requires o < |c|
    ensures Deviations(c)[o] == c[o] - Sum(c) / |c| as real
  {
    hide Sum;
  }

  lemma Rescaled(x: real, total: real, n: real, origin: real, scale: real, s: real, sum: real)
    requires n > 0.0 && scale != 0.0 && s == (x - origin) / scale && sum == (total - n * origin) / scale
    ensures (s - sum / n) * scale == x - total / n
  {
    assert s * scale == x - origin;
    assert sum * scale == total - n * origin;
    assert (sum / n) * scale == (sum * scale) / n;
    assert (total - n * origin) / n == total / n - origin by {
      SplitQuotient(total, n, origin);
    }
  }

  lemma SplitQuotient(total: real, n: real, origin: real)
    requires n > 0.0
    ensures (total - n * origin) / n == total / n - origin
  {
    assert ((total - n * origin) / n) * n == total - n * origin;
    assert (total / n - origin) * n == total - origin * n;
  }

  lemma {:induction false} ConstantSum(c: seq<real>, x: real)
    requires forall o | 0 <= o < |c| :: c[o] == x
    ensures Sum(c) == |c| as real * x
  {
    if |c| > 0 {
      ConstantSum(c[..|c| - 1], x);
    }
  }

  /** A constant column has no deviations. */
  lemma ConstantColumn(c: seq<real>, x: real, o: nat)
    requires o < |c| && forall k | 0 <= k < |c| :: c[k] == x
    ensures Deviations(c)[o] == 0.0
  {
    ConstantSum(c, x);
    assert |c| as real * x / |c| as real == x;
  }

  lemma NoDeviations(c: seq<real>, source: seq<real>, origin: real)
    requires |source| == |c| > 0 && forall o | 0 <= o < |c| :: source[o] == c[o] - origin
    requires forall o | 0 <= o < |c| :: Abs(source[o]) <= 0.0
    ensures forall o: nat | o < |c| :: 0.0 * 0.0 == Deviations(c)[o]
  {
    forall o: nat | o < |c|
      ensures Deviations(c)[o] == 0.0
    {
      assert forall k | 0 <= k < |c| :: c[k] == origin by {
        assert forall k | 0 <= k < |c| :: Abs(source[k]) <= 0.0;
      }
      ConstantColumn(c, origin, o);
    }
  }

  // ---- the algorithm ----------------------------------------------------------------------

  /** One variable: its scale and its scaled, centred column; zero for a constant column. */
  method Centre(a: seq<real>, observations: nat, variables: nat, v: nat) returns (centered: seq<real>, scale: real)
    requires |a| == observations * variables && v < variables && observations > 0
    ensures |centered| == observations
    ensures var d := Deviations(Column(a, observations, variables, v));
      forall o: nat | o < observations :: centered[o] * scale == d[o]
  {
    hide Column, Deviations, Sum;
    ghost var c := Column(a, observations, variables, v);
    IxInside(observations, variables, 0, v);
    var origin := a[v];
    assert Ix(variables, 0, v) == v;
    var source: seq<real> := [];
    for row := 0 to observations
      invariant |source| == row && forall o: nat | o < row :: source[o] == c[o] - origin
    {
      IxInside(observations, variables, row, v);
      source := source + [a[row * variables + v] - origin];
    }
    scale := LargestMagnitude(source);
    if scale == 0.0 {
      centered := seq(observations, o => 0.0);
      NoDeviations(c, source, origin);
      return;
    }
    centered := CentreScaled(source, scale, c, origin);
  }

  method CentreScaled(source: seq<real>, scale: real, ghost c: seq<real>, ghost origin: real) returns (centered: seq<real>)
    requires |source| == |c| > 0 && scale != 0.0 && forall o | 0 <= o < |c| :: source[o] == c[o] - origin
    ensures |centered| == |c| && forall o: nat | o < |c| :: centered[o] * scale == Deviations(c)[o]
  {
    hide Deviations, Sum;
    var scaled := seq(|source|, o requires 0 <= o < |source| => source[o] / scale);
    var sum := CompensatedSum(scaled);
    var center := sum / |source| as real;
    centered := seq(|source|, o requires 0 <= o < |source| => source[o] / scale - center);
    forall o: nat | o < |c|
      ensures centered[o] * scale == Deviations(c)[o]
    {
      AnchoringIsCentring(c, scaled, origin, scale, o);
    }
  }

  /** `balanced_product`: smallest and largest magnitude first, then the middle one. */
  method BalancedProduct(x: real, y: real, z: real) returns (r: real)
    ensures r == x * y * z
  {
    var a, b, c := x, y, z;
    if Abs(b) < Abs(a) {
      a, b := b, a;
    }
    if Abs(c) < Abs(b) {
      b, c := c, b;
    }
    if Abs(b) < Abs(a) {
      a, b := b, a;
    }
    var intermediate := a * c;
    r := intermediate * b;
    ThreeFactors(a, b, c);
  }

  lemma ThreeFactors(a: real, b: real, c: real)
    ensures a * c * b == a * b * c == b * a * c == c * a * b == b * c * a == c * b * a
  {
  }

  /** Every entry of the result, on and off the diagonal and on both sides of it. */
  ghost predicate IsCovariance(result: seq<real>, a: seq<real>, observations: nat, variables: nat, ddof: nat)
    requires |a| == observations * variables && observations > ddof
  {
    && |result| == variables * variables
    && forall i: nat, j: nat | i < variables && j < variables ::
         At(result, variables, variables, i, j)
           == Cov(Column(a, observations, variables, i), Column(a, observations, variables, j), ddof)
  }

  /** The scaled cross product of two centred columns is their covariance. */
  lemma CrossIsCov(x: seq<real>, y: seq<real>, cx: seq<real>, cy: seq<real>, sx: real, sy: real, ddof: nat)
    requires |x| == |y| == |cx| == |cy| && |x| > ddof
    requires forall o: nat | o < |x| :: cx[o] * sx == Deviations(x)[o]
    requires forall o: nat | o < |x| :: cy[o] * sy == Deviations(y)[o]
    ensures (Sum(Products(cx, cy)) / (|x| - ddof) as real) * sx * sy == Cov(x, y, ddof)
  {
    hide Sum, Deviations;
    var p, q := Products(cx, cy), Products(Deviations(x), Deviations(y));
    forall o | 0 <= o < |p|
      ensures q[o] == (sx * sy) * p[o]
    {
      Regroup(cx[o], sx, cy[o], sy);
    }
    SumScaled(p, q, sx * sy);
    ScaleQuotient(Sum(p), (|x| - ddof) as real, sx, sy);
  }

  lemma Regroup(a: real, s: real, b: real, t: real)
    ensures (a * s) * (b * t) == (s * t) * (a * b)
  {
  }

  lemma ScaleQuotient(x: real, n: real, s: real, t: real)
    requires n > 0.0
    ensures (x / n) * s * t == ((s * t) * x) / n
  {
    assert (x / n) * n == x;
    assert ((x / n) * s * t) * n == (s * t) * ((x / n) * n);
  }

  lemma {:induction false} CovSymmetric(x: seq<real>, y: seq<real>, ddof: nat)
    requires |x| == |y| && |x| > ddof
    ensures Cov(x, y, ddof) == Cov(y, x, ddof)
  {
    hide Sum;
    assert Products(Deviations(x), Deviations(y)) == Products(Deviations(y), Deviations(x));
  }

  /** Cross terms of two stored columns. */
  method CrossTerms(centered: seq<seq<real>>, i: nat, j: nat, observations: nat) returns (terms: seq<real>)
    requires i < |centered| && j < |centered| && |centered[i]| == |centered[j]| == observations
    ensures terms == Products(centered[i], centered[j])
  {
    terms := seq(observations, o requires 0 <= o < observations => centered[i][o] * centered[j][o]);
  }

  method CentreAll(a: seq<real>, observations: nat, variables: nat) returns (centered: seq<seq<real>>, scales: seq<real>)
    requires |a| == observations * variables && observations > 0
    ensures |centered| == |scales| == variables
    ensures forall i: nat | i < variables :: IsCentred(centered[i], scales[i], Column(a, observations, variables, i))
  {
    hide Column;
    centered, scales := [], [];
    for v := 0 to variables
      invariant |centered| == |scales| == v
      invariant forall i: nat | i < v :: IsCentred(centered[i], scales[i], Column(a, observations, variables, i))
    {
      var column, scale := Centre(a, observations, variables, v);
      centered, scales := centered + [column], scales + [scale];
    }
  }

  /** The upper left square of the result is done. */
  ghost predicate Filled(buffer: seq<real>, a: seq<real>, observations: nat, variables: nat, ddof: nat, rows: nat)
    requires |a| == observations * variables && observations > ddof && |buffer| == variables * variables
  {
    forall i: nat, j: nat | i < variables && j < variables && i < rows && j < rows ::
      At(buffer, variables, variables, i, j) == Entry(a, observations, variables, ddof, i, j)
  }

  /** Row `row` of the result up to its diagonal, and the mirrored column. */
  method FillRow(a: seq<real>, observations: nat, variables: nat, ddof: nat, centered: seq<seq<real>>, scales: seq<real>,
                 row: nat, buffer: array<real>)
    requires |a| == observations * variables && observations > ddof && row < variables
    requires |centered| == |scales| == variables && buffer.Length == variables * variables
    requires forall i: nat | i < variables :: IsCentred(centered[i], scales[i], Column(a, observations, variables, i))
    requires Filled(buffer[..], a, observations, variables, ddof, row)
    modifies buffer
    ensures Filled(buffer[..], a, observations, variables, ddof, row + 1)
  {
    hide Column, At, Sum, Products, Entry, Deviations;
    for column := 0 to row + 1
      invariant Filled(buffer[..], a, observations, variables, ddof, row)
      invariant forall j: nat | j < column ::
                  && At(buffer[..], variables, variables, row, j) == Entry(a, observations, variables, ddof, row, j)
                  && At(buffer[..], variables, variables, j, row) == Entry(a, observations, variables, ddof, j, row)
    {
      assert IsCentred(centered[row], scales[row], Column(a, observations, variables, row));
      assert IsCentred(centered[column], scales[column], Column(a, observations, variables, column));
      var terms := CrossTerms(centered, row, column, observations);
      var sum := CompensatedSum(terms);
      var normalized := sum / (observations - ddof) as real;
      var value := BalancedProduct(normalized, scales[row], scales[column]);
      EntryIs(a, observations, variables, ddof, row, column, centered[row], centered[column], scales[row], scales[column]);
      SetBoth(buffer, variables, row, column, value);
    }
  }

  /** `covariance`: `None` when there are not more observations than degrees of freedom given up. */
  method CovarianceMatrix(a: seq<real>, observations: nat, variables: nat, ddof: nat) returns (r: Option<seq<real>>)
    requires |a| == observations * variables && observations > 0 && ddof <= 1
    ensures r.None? <==> observations <= ddof
    ensures r.Some? ==> IsCovariance(r.value, a, observations, variables, ddof)
  {
    if observations <= ddof {
      return None;
    }
    hide Column, At, IsCentred;
    var centered, scales := CentreAll(a, observations, variables);
    var buffer := new real[variables * variables](_ => 0.0);
    for row := 0 to variables
      invariant Filled(buffer[..], a, observations, variables, ddof, row)
    {
      FillRow(a, observations, variables, ddof, centered, scales, row, buffer);
    }
    r := Some(buffer[..]);
  }

  ghost predicate IsCentred(centered: seq<real>, scale: real, c: seq<real>) {
    && |c| > 0 && |centered| == |c|
    && forall o: nat | o < |c| :: centered[o] * scale == Deviations(c)[o]
  }

  ghost function Entry(a: seq<real>, observations: nat, variables: nat, ddof: nat, i: nat, j: nat): real
    requires |a| == observations * variables && observations > ddof && i < variables && j < variables
  {
    Cov(Column(a, observations, variables, i), Column(a, observations, variables, j), ddof)
  }

  lemma EntryIs(a: seq<real>, observations: nat, variables: nat, ddof: nat, i: nat, j: nat,
                ci: seq<real>, cj: seq<real>, si: real, sj: real)
    requires |a| == observations * variables && observations > ddof && i < variables && j < variables
    requires IsCentred(ci, si, Column(a, observations, variables, i))
    requires IsCentred(cj, sj, Column(a, observations, variables, j))
    ensures (Sum(Products(ci, cj)) / (observations - ddof) as real) * si * sj == Entry(a, observations, variables, ddof, i, j)
    ensures Entry(a, observations, variables, ddof, i, j) == Entry(a, observations, variables, ddof, j, i)
  {
    hide Cov, Sum, Products, Deviations;
    var x, y := Column(a, observations, variables, i), Column(a, observations, variables, j);
    CrossIsCov(x, y, ci, cj, si, sj, ddof);
    CovSymmetric(x, y, ddof);
  }

  /** Two mirrored writes into the flat result. */
  method SetBoth(buffer: array<real>, n: nat, row: nat, column: nat, value: real)
    requires buffer.Length == n * n && column <= row < n
    modifies buffer
    ensures forall i: nat, j: nat | i < n && j < n ::
              At(buffer[..], n, n, i, j) ==
                if (i == row && j == column) || (i == column && j == row) then value else At(old(buffer[..]), n, n, i, j)
  {
    IxInside(n, n, row, column);
    IxInside(n, n, column, row);
    buffer[row * n + column] := value;
    buffer[column * n + row] := value;
    forall i: nat, j: nat | i < n && j < n
      ensures At(buffer[..], n, n, i, j) ==
                if (i == row && j == column) || (i == column && j == row) then value else At(old(buffer[..]), n, n, i, j)
    {
      IxInside(n, n, i, j);
      if Ix(n, i, j) == Ix(n, row, column) {
        IxDistinct(n, i, j, row, column);
      }
      if Ix(n, i, j) == Ix(n, column, row) {
        IxDistinct(n, i, j, column, row);
      }
    }
  }
}
