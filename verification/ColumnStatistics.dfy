/** Column means and variances: one pass with running means against sums and sums of squares. */
module ColumnStatistics {
  import opened Options

  type Table = seq<seq<Option<real>>>

  function Sum(xs: seq<real>): real {
    if xs == [] then 0.0 else Sum(xs[..|xs| - 1]) + xs[|xs| - 1]
  }

  function SumOfSquares(xs: seq<real>): real {
    if xs == [] then 0.0 else SumOfSquares(xs[..|xs| - 1]) + xs[|xs| - 1] * xs[|xs| - 1]
  }

  function Mean(xs: seq<real>): real
    requires xs != []
  {
    Sum(xs) / |xs| as real
  }

  function Variance(xs: seq<real>): real
    requires xs != []
  {
    SumOfSquares(xs) / |xs| as real - Mean(xs) * Mean(xs)
  }

  /** The present training values of one column among the first n rows. */
  function Column(rows: Table, train: seq<bool>, n: nat, c: nat): seq<real>
    requires n <= |rows| == |train| && forall i :: 0 <= i < |rows| ==> c < |rows[i]|
  {
    if n == 0 then []
    else
      var before := Column(rows, train, n - 1, c);
      if train[n - 1] && rows[n - 1][c].Some? then before + [rows[n - 1][c].value] else before
  }

  predicate Rectangular(rows: Table, width: nat) {
    forall i :: 0 <= i < |rows| ==> |rows[i]| == width
  }

  predicate Complete(rows: Table) {
    forall i, c :: 0 <= i < |rows| && 0 <= c < |rows[i]| ==> rows[i][c].Some?
  }

  function TrainCount(train: seq<bool>, n: nat): nat
    requires n <= |train|
  {
    if n == 0 then 0 else TrainCount(train, n - 1) + if train[n - 1] then 1 else 0
  }

  lemma {:induction false} ColumnLength(rows: Table, train: seq<bool>, n: nat, c: nat)
    requires n <= |rows| == |train| && (forall i :: 0 <= i < |rows| ==> c < |rows[i]|) && Complete(rows)
    ensures |Column(rows, train, n, c)| == TrainCount(train, n)
  {
    if n > 0 { ColumnLength(rows, train, n - 1, c); }
  }

  // ---------------------------------------------------------------- the running form

  /** A running mean and squared deviation stand for the values seen so far. */
  predicate Tracks(mean: real, m2: real, xs: seq<real>) {
    && mean * |xs| as real == Sum(xs)
    && m2 == SumOfSquares(xs) - mean * Sum(xs)
    && m2 >= 0.0
  }

  lemma StepAlgebra(n: real, mean: real, s: real, q: real, m2: real, x: real, mean': real, m2': real)
    requires n >= 0.0 && mean * n == s && m2 == q - mean * s && m2 >= 0.0
    requires mean' == mean + (x - mean) / (n + 1.0)
    requires m2' == m2 + (x - mean) * (x - mean')
    ensures mean' * (n + 1.0) == s + x
    ensures m2' == (q + x * x) - mean' * (s + x)
    ensures m2' >= 0.0
  {
    var delta := x - mean;
    var part := delta / (n + 1.0);
    assert part * (n + 1.0) == delta;
    assert mean' * (n + 1.0) == mean * n + mean + delta by {
      assert (mean + part) * (n + 1.0) == mean * (n + 1.0) + part * (n + 1.0);
    }
    CrossTerm(n, mean, s, x, mean');
    // the increment is a square scaled by n / (n + 1)
    assert x - mean' == part * n by {
      assert part * (n + 1.0) == part * n + part;
    }
    assert delta * (x - mean') == (part * (n + 1.0)) * (part * n);
    SquareIsNonNegative(part, n);
    assert (x - mean) * (x - mean') >= 0.0;
  }

  lemma CrossTerm(n: real, mean: real, s: real, x: real, mean': real)
    requires mean * n == s && mean' * (n + 1.0) == s + x
    ensures (x - mean) * (x - mean') - mean * s == x * x - mean' * (s + x)
  {
    assert mean' * mean + mean' * s == mean * (s + x) by {
      assert mean' * s == (mean' * n) * mean;
      assert mean' * (n + 1.0) == mean' * n + mean';
      assert mean' * mean + (mean' * n) * mean == (mean' * (n + 1.0)) * mean;
    }
    assert (x - mean) * (x - mean') == x * x - x * mean' - mean * x + mean * mean';
  }

  lemma SquareIsNonNegative(p: real, n: real)
    requires n >= 0.0
    ensures (p * (n + 1.0)) * (p * n) >= 0.0
  {
    var square, scale := p * p, n * (n + 1.0);
    assert square >= 0.0 && scale >= 0.0;
    assert (p * (n + 1.0)) * (p * n) == square * scale;
  }

  lemma TracksMore(mean: real, m2: real, xs: seq<real>, x: real, mean': real, m2': real)
    requires Tracks(mean, m2, xs)
    requires mean' == mean + (x - mean) / (|xs| + 1) as real
    requires m2' == m2 + (x - mean) * (x - mean')
    ensures Tracks(mean', m2', xs + [x])
  {
    assert (xs + [x])[..|xs|] == xs;
    StepAlgebra(|xs| as real, mean, Sum(xs), SumOfSquares(xs), m2, x, mean', m2');
  }

  /** Over exact numbers the running form gives the textbook mean and variance, which is never negative. */
  lemma TracksMeansStatistics(mean: real, m2: real, xs: seq<real>)
    requires Tracks(mean, m2, xs) && xs != []
    ensures mean == Mean(xs) && m2 / |xs| as real == Variance(xs) && Variance(xs) >= 0.0
  {
    var n := |xs| as real;
    QuotientOfProduct(mean, n, Sum(xs));
    DivideDifference(SumOfSquares(xs), mean, Sum(xs), n);
  }

  /** The sum of the squared distances from a point. */
  function Spread(xs: seq<real>, point: real): real {
    if xs == [] then 0.0 else Spread(xs[1..], point) + (xs[0] - point) * (xs[0] - point)
  }

  lemma SpreadOfNothing(point: real)
    ensures Spread([], point) == 0.0
  {
  }

  lemma SpreadMore(xs: seq<real>, x: real, point: real)
    ensures Spread(xs + [x], point) == Spread(xs, point) + (x - point) * (x - point)
  {
    if xs == [] {
      assert xs + [x] == [x] && [x][1..] == [];
    } else {
      assert (xs + [x])[1..] == xs[1..] + [x];
      SpreadMore(xs[1..], x, point);
    }
  }

  lemma {:induction false} SpreadExpands(xs: seq<real>, point: real)
    ensures Spread(xs, point) == SumOfSquares(xs) - 2.0 * point * Sum(xs) + |xs| as real * point * point
  {
    hide Spread;
    if xs == [] {
      assert Spread([], point) == 0.0 by { SpreadOfNothing(point); }
    } else {
      var init, last := xs[..|xs| - 1], xs[|xs| - 1];
      assert xs == init + [last];
      SpreadExpands(init, point);
      SpreadMore(init, last, point);
      ExpandMore(SumOfSquares(init), Sum(init), |init| as real, last, point);
    }
  }

  lemma ExpandMore(q: real, s: real, n: real, x: real, point: real)
    ensures q - 2.0 * point * s + n * point * point + (x - point) * (x - point)
      == (q + x * x) - 2.0 * point * (s + x) + (n + 1.0) * point * point
  {
  }

  /** The variance is the mean of the squared distances from the mean. */
  lemma VarianceIsMeanSpread(xs: seq<real>)
    requires xs != []
    ensures Variance(xs) == Spread(xs, Mean(xs)) / |xs| as real
  {
    hide Spread, Sum, SumOfSquares;
    var n, mean := |xs| as real, Mean(xs);
    SpreadExpands(xs, mean);
    assert mean * n == Sum(xs);
    MeanSpread(SumOfSquares(xs), Sum(xs), n, mean);
  }

  lemma MeanSpread(q: real, s: real, n: real, mean: real)
    requires n > 0.0 && mean * n == s
    ensures (q - 2.0 * mean * s + n * mean * mean) / n == q / n - mean * mean
  {
    assert mean * s == n * mean * mean;
    QuotientOfProduct(q / n - mean * mean, n, q - 2.0 * mean * s + n * mean * mean);
  }

  lemma QuotientOfProduct(q: real, n: real, s: real)
    requires n > 0.0 && q * n == s
    ensures s / n == q
  {
    assert (q - s / n) * n == 0.0;
  }

  lemma DivideDifference(q: real, mean: real, s: real, n: real)
    requires n > 0.0 && mean == s / n
    ensures (q - mean * s) / n == q / n - mean * mean
    ensures q - mean * s >= 0.0 ==> (q - mean * s) / n >= 0.0
  {
    assert mean * s == mean * mean * n by {
      assert s == mean * n;
    }
    assert (q / n - mean * mean) * n == q - mean * mean * n;
  }

  /** The native scan: one row at a time, every column; `None` reports a refused table. */
  method ScanStatistics(rows: Table, train: seq<bool>, features: nat)
    returns (r: Option<(seq<real>, seq<real>)>)
    requires |rows| == |train| && Rectangular(rows, features)
    ensures !Complete(rows) ==> r.None?
    ensures r.Some? ==>
      && var (means, variances) := r.value;
      && |means| == |variances| == features && |rows| >= 32 && TrainCount(train, |rows|) >= 8
      && forall c :: 0 <= c < features ==>
        && var xs := Column(rows, train, |rows|, c);
        && xs != [] && means[c] == Mean(xs) && variances[c] == Variance(xs)
    ensures Complete(rows) ==>
      (r.Some? <==>
        && |rows| >= 32 && TrainCount(train, |rows|) >= 8
        && forall c :: 0 <= c < features ==>
          && var xs := Column(rows, train, |rows|, c);
          && xs != [] && Variance(xs) > 0.000000000000000000000001)
  {
    hide Tracks, Column, Sum, SumOfSquares, Variance, Mean;
    var means, m2 := new real[features](_ => 0.0), new real[features](_ => 0.0);
    var trainRows := 0;
    var i := 0;
    forall c | 0 <= c < features ensures Column(rows, train, 0, c) == [] && Tracks(0.0, 0.0, []) {
      ColumnStart(rows, train, c);
    }
    while i < |rows|
      invariant 0 <= i <= |rows| && trainRows == TrainCount(train, i)
      invariant Complete(rows[..i])
      invariant forall c :: 0 <= c < features ==> |Column(rows, train, i, c)| == trainRows
      invariant forall c :: 0 <= c < features ==> Tracks(means[c], m2[c], Column(rows, train, i, c))
    {
      var complete := ScanRow(rows[i], train[i], means, m2, trainRows, rows, train, i);
      if !complete { return None; }
      assert rows[..i + 1] == rows[..i] + [rows[i]];
      if train[i] { trainRows := trainRows + 1; }
      i := i + 1;
    }
    assert rows[..i] == rows;
    if |rows| < 32 || trainRows < 8 { return None; }
    var variances := new real[features](_ => 0.0);
    var f := 0;
    while f < features
      invariant 0 <= f <= features
      invariant forall c :: 0 <= c < features ==> |Column(rows, train, |rows|, c)| == trainRows
      invariant forall c :: 0 <= c < features ==> Tracks(means[c], m2[c], Column(rows, train, |rows|, c))
      invariant forall c :: 0 <= c < f ==>
        && Column(rows, train, |rows|, c) != [] && means[c] == Mean(Column(rows, train, |rows|, c))
        && variances[c] == Variance(Column(rows, train, |rows|, c)) && variances[c] > 0.000000000000000000000001
    {
      var variance := m2[f] / trainRows as real;
      assert |Column(rows, train, |rows|, f)| == trainRows;
      TracksMeansStatistics(means[f], m2[f], Column(rows, train, |rows|, f));
      // the deviation is compared with 1e-12, so its square with 1e-24
      if variance <= 0.000000000000000000000001 { return None; }
      variances[f] := variance;
      f := f + 1;
    }
    r := Some((means[..], variances[..]));
  }

  lemma ColumnStart(rows: Table, train: seq<bool>, c: nat)
    requires |rows| == |train| && forall i :: 0 <= i < |rows| ==> c < |rows[i]|
    ensures Column(rows, train, 0, c) == [] && Tracks(0.0, 0.0, []) && Sum([]) == SumOfSquares([]) == 0.0
  {
  }

  lemma ColumnStep(rows: Table, train: seq<bool>, i: nat, c: nat)
    requires i < |rows| == |train| && forall i :: 0 <= i < |rows| ==> c < |rows[i]|
    ensures Column(rows, train, i + 1, c) ==
      if train[i] && rows[i][c].Some? then Column(rows, train, i, c) + [rows[i][c].value] else Column(rows, train, i, c)
  {
  }

  method ScanRow(row: seq<Option<real>>, isTrain: bool, means: array<real>, m2: array<real>, trainRows: nat,
                 ghost rows: Table, ghost train: seq<bool>, ghost i: nat) returns (complete: bool)
    requires |rows| == |train| && Rectangular(rows, means.Length) && i < |rows| && rows[i] == row && train[i] == isTrain
    requires m2.Length == means.Length && means != m2
    requires forall c :: 0 <= c < means.Length ==> |Column(rows, train, i, c)| == trainRows
    requires forall c :: 0 <= c < means.Length ==> Tracks(means[c], m2[c], Column(rows, train, i, c))
    modifies means, m2
    ensures complete <==> forall c :: 0 <= c < |row| ==> row[c].Some?
    ensures complete ==> forall c :: 0 <= c < means.Length ==> Tracks(means[c], m2[c], Column(rows, train, i + 1, c))
    ensures complete ==> var next := i + 1; forall c :: 0 <= c < means.Length ==>
      |Column(rows, train, next, c)| == if isTrain then trainRows + 1 else trainRows
  {
    hide Tracks, Column, Sum, SumOfSquares;
    var c := 0;
    while c < |row|
      invariant 0 <= c <= |row| == means.Length
      invariant forall d :: 0 <= d < c ==> row[d].Some?
      invariant forall d :: 0 <= d < c ==> Tracks(means[d], m2[d], Column(rows, train, i + 1, d))
      invariant var next := i + 1; forall d :: 0 <= d < c ==>
        |Column(rows, train, next, d)| == if isTrain then trainRows + 1 else trainRows
      invariant forall d :: c <= d < means.Length ==> Tracks(means[d], m2[d], Column(rows, train, i, d))
    {
      if row[c].None? { return false; }
      var value := row[c].value;
      ColumnStep(rows, train, i, c);
      if isTrain {
        ghost var xs := Column(rows, train, i, c);
        ghost var mean0, m0 := means[c], m2[c];
        var delta := value - means[c];
        means[c] := means[c] + delta / (trainRows + 1) as real;
        m2[c] := m2[c] + delta * (value - means[c]);
        TracksMore(mean0, m0, xs, value, means[c], m2[c]);
      }
      c := c + 1;
    }
    complete := true;
  }

  // ---------------------------------------------------------------- the sum form

  /** The portable specification: sums, sums of squares and counts of the present values of a column, with a
      clamp on the variance that exact arithmetic never needs. */
  method SpecStatistics(rows: Table, train: seq<bool>, features: nat)
    returns (means: seq<real>, variances: seq<real>)
    requires |rows| == |train| && Rectangular(rows, features)
    ensures |means| == |variances| == features
    ensures forall c :: 0 <= c < features ==>
      && var xs := Column(rows, train, |rows|, c);
      && (xs != [] ==> means[c] == Mean(xs) && variances[c] == Variance(xs))
      && (xs == [] ==> means[c] == 0.0 && variances[c] == 0.0)
  {
    hide Column, Sum, SumOfSquares, Mean, Variance;
    var sums, squares := new real[features](_ => 0.0), new real[features](_ => 0.0);
    var counts := new nat[features](_ => 0);
    var i := 0;
    forall c | 0 <= c < features ensures Column(rows, train, 0, c) == [] && Sum([]) == SumOfSquares([]) == 0.0 {
      ColumnStart(rows, train, c);
    }
    while i < |rows|
      invariant 0 <= i <= |rows|
      invariant forall c :: 0 <= c < features ==>
        && counts[c] == |Column(rows, train, i, c)| && sums[c] == Sum(Column(rows, train, i, c))
        && squares[c] == SumOfSquares(Column(rows, train, i, c))
    {
      forall c | 0 <= c < features
        ensures Column(rows, train, i + 1, c) ==
          if train[i] && rows[i][c].Some? then Column(rows, train, i, c) + [rows[i][c].value]
          else Column(rows, train, i, c)
      {
        ColumnStep(rows, train, i, c);
      }
      if train[i] { AddRow(rows, train, i, sums, squares, counts); }
      i := i + 1;
    }
    means, variances := [], [];
    var f := 0;
    while f < features
      invariant 0 <= f <= features && |means| == |variances| == f
      invariant forall c :: 0 <= c < features ==>
        && counts[c] == |Column(rows, train, |rows|, c)| && sums[c] == Sum(Column(rows, train, |rows|, c))
        && squares[c] == SumOfSquares(Column(rows, train, |rows|, c))
      invariant forall c :: 0 <= c < f ==>
        && var xs := Column(rows, train, |rows|, c);
        && (xs != [] ==> means[c] == Mean(xs) && variances[c] == Variance(xs))
        && (xs == [] ==> means[c] == 0.0 && variances[c] == 0.0)
    {
      var mean, variance := Finish(Column(rows, train, |rows|, f), sums[f], squares[f], counts[f]);
      means := means + [mean];
      variances := variances + [variance];
      f := f + 1;
    }
  }

  method Finish(ghost xs: seq<real>, sum: real, square: real, seen: nat) returns (mean: real, variance: real)
    requires seen == |xs| && sum == Sum(xs) && square == SumOfSquares(xs)
    ensures xs != [] ==> mean == Mean(xs) && variance == Variance(xs)
    ensures xs == [] ==> mean == 0.0 && variance == 0.0
  {
    var count := if seen > 1 then seen else 1;
    mean := sum / count as real;
    var raw := square / count as real - mean * mean;
    if xs != [] { VarianceIsNonNegative(xs); }
    variance := if raw > 0.0 then raw else 0.0;
  }

  lemma SumsMore(xs: seq<real>, x: real)
    ensures Sum(xs + [x]) == Sum(xs) + x && SumOfSquares(xs + [x]) == SumOfSquares(xs) + x * x
  {
    assert (xs + [x])[..|xs|] == xs;
  }

  method AddRow(rows: Table, train: seq<bool>, i: nat, sums: array<real>, squares: array<real>, counts: array<nat>)
    requires |rows| == |train| && Rectangular(rows, sums.Length) && i < |rows| && train[i]
    requires squares.Length == counts.Length == sums.Length && sums != squares
    requires forall c :: 0 <= c < sums.Length ==>
      && counts[c] == |Column(rows, train, i, c)| && sums[c] == Sum(Column(rows, train, i, c))
      && squares[c] == SumOfSquares(Column(rows, train, i, c))
    modifies sums, squares, counts
    ensures forall c :: 0 <= c < sums.Length ==>
      && counts[c] == |Column(rows, train, i + 1, c)| && sums[c] == Sum(Column(rows, train, i + 1, c))
      && squares[c] == SumOfSquares(Column(rows, train, i + 1, c))
  {
    hide Column, Sum, SumOfSquares;
    var c := 0;
    while c < sums.Length
      invariant 0 <= c <= sums.Length
      invariant forall d :: 0 <= d < sums.Length ==>
        && var xs := Column(rows, train, if d < c then i + 1 else i, d);
        && counts[d] == |xs| && sums[d] == Sum(xs) && squares[d] == SumOfSquares(xs)
    {
      ColumnStep(rows, train, i, c);
      if rows[i][c].Some? {
        var value := rows[i][c].value;
        ghost var xs := Column(rows, train, i, c);
        SumsMore(xs, value);
        sums[c] := sums[c] + value;
        squares[c] := squares[c] + value * value;
        counts[c] := counts[c] + 1;
      }
      c := c + 1;
    }
  }

  /** Every sequence of values is tracked by some running mean, so its variance is not negative. */
  lemma {:induction false} SomeRunningMean(xs: seq<real>) returns (mean: real, m2: real)
    ensures Tracks(mean, m2, xs)
  {
    if xs == [] {
      mean, m2 := 0.0, 0.0;
    } else {
      var init, x := xs[..|xs| - 1], xs[|xs| - 1];
      var mean0, m0 := SomeRunningMean(init);
      mean := mean0 + (x - mean0) / (|init| + 1) as real;
      m2 := m0 + (x - mean0) * (x - mean);
      TracksMore(mean0, m0, init, x, mean, m2);
      assert init + [x] == xs;
    }
  }

  lemma VarianceIsNonNegative(xs: seq<real>)
    requires xs != []
    ensures Variance(xs) >= 0.0
  {
    var mean, m2 := SomeRunningMean(xs);
    TracksMeansStatistics(mean, m2, xs);
  }
}
