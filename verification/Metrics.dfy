/** The confusion matrix, its sums, and the micro-averaged F1. */
module Metrics {

  /** What is counted for a class: a matrix row's entries, its label, its hits, or one kind of error. */
  datatype Kind = InRow(actual: int) | Labelled | Hit | FalsePositive | FalseNegative

  /** Whether a row takes part at all, and for which class it is counted. */
  predicate Base(kind: Kind, truth: int, guess: int) {
    match kind
    case InRow(actual) => truth == actual
    case Labelled => true
    case Hit => truth == guess
    case FalsePositive | FalseNegative => truth != guess
  }

  function Class(kind: Kind, truth: int, guess: int): int {
    if kind.InRow? || kind.FalsePositive? then guess else truth
  }

  /** The condition as the metrics spell it. */
  predicate Counts(kind: Kind, class_: int, truth: int, guess: int) {
    match kind
    case InRow(actual) => truth == actual && guess == class_
    case Labelled => truth == class_
    case Hit => truth == class_ && guess == class_
    case FalsePositive => truth != class_ && guess == class_
    case FalseNegative => truth == class_ && guess != class_
  }

  function Count(kind: Kind, class_: int, truth: seq<int>, guesses: seq<int>): nat
    requires |truth| == |guesses|
  {
    if truth == [] then 0
    else
      var n := |truth| - 1;
      Count(kind, class_, truth[..n], guesses[..n]) + if Counts(kind, class_, truth[n], guesses[n]) then 1 else 0
  }

  function BaseCount(kind: Kind, truth: seq<int>, guesses: seq<int>): nat
    requires |truth| == |guesses|
  {
    if truth == [] then 0
    else
      var n := |truth| - 1;
      BaseCount(kind, truth[..n], guesses[..n]) + if Base(kind, truth[n], guesses[n]) then 1 else 0
  }

  function SumClasses(kind: Kind, classes: seq<int>, truth: seq<int>, guesses: seq<int>): nat
    requires |truth| == |guesses|
  {
    if classes == [] then 0
    else
      SumClasses(kind, classes[..|classes| - 1], truth, guesses) + Count(kind, classes[|classes| - 1], truth, guesses)
  }

  predicate Ascending(classes: seq<int>) {
    forall i, j :: 0 <= i < j < |classes| ==> classes[i] < classes[j]
  }

  predicate Covers(classes: seq<int>, labels: seq<int>) {
    forall i :: 0 <= i < |labels| ==> labels[i] in classes
  }

  lemma {:induction false} SumOverNoRows(kind: Kind, classes: seq<int>)
    ensures SumClasses(kind, classes, [], []) == 0
  {
    if classes != [] { SumOverNoRows(kind, classes[..|classes| - 1]); }
  }

  /** One more row is counted for its own class and no other. */
  lemma {:induction false} SumClassesStep(kind: Kind, classes: seq<int>, truth: seq<int>, guesses: seq<int>)
    requires |truth| == |guesses| && truth != [] && Ascending(classes)
    ensures var n := |truth| - 1;
      SumClasses(kind, classes, truth, guesses) == SumClasses(kind, classes, truth[..n], guesses[..n])
        + if Base(kind, truth[n], guesses[n]) && Class(kind, truth[n], guesses[n]) in classes then 1 else 0
    decreases |classes|
  {
    if classes != [] {
      var init, last := classes[..|classes| - 1], classes[|classes| - 1];
      SumClassesStep(kind, init, truth, guesses);
      assert classes == init + [last];
      assert last !in init;
    }
  }

  lemma {:induction false} SumIsBase(kind: Kind, classes: seq<int>, truth: seq<int>, guesses: seq<int>)
    requires |truth| == |guesses| && Ascending(classes) && Covers(classes, truth) && Covers(classes, guesses)
    ensures SumClasses(kind, classes, truth, guesses) == BaseCount(kind, truth, guesses)
    decreases |truth|
  {
    if truth == [] {
      SumOverNoRows(kind, classes);
    } else {
      var n := |truth| - 1;
      SumIsBase(kind, classes, truth[..n], guesses[..n]);
      SumClassesStep(kind, classes, truth, guesses);
    }
  }

  lemma {:induction false} BaseCounts(truth: seq<int>, guesses: seq<int>, actual: int)
    requires |truth| == |guesses|
    ensures BaseCount(Labelled, truth, guesses) == |truth|
    ensures BaseCount(Hit, truth, guesses) + BaseCount(FalsePositive, truth, guesses) == |truth|
    ensures BaseCount(FalseNegative, truth, guesses) == BaseCount(FalsePositive, truth, guesses)
    ensures BaseCount(InRow(actual), truth, guesses) == Count(Labelled, actual, truth, guesses)
  {
    if truth != [] {
      var n := |truth| - 1;
      BaseCounts(truth[..n], guesses[..n], actual);
    }
  }

  /** Summed over the classes: the diagonal is the number of correct rows, false positives and false
      negatives are both the number of wrong rows, and each matrix row sums to its label's support. */
  lemma ClassSums(classes: seq<int>, truth: seq<int>, guesses: seq<int>, actual: int)
    requires |truth| == |guesses| && Ascending(classes) && Covers(classes, truth) && Covers(classes, guesses)
    ensures var correct := BaseCount(Hit, truth, guesses);
      && SumClasses(Hit, classes, truth, guesses) == correct <= |truth|
      && SumClasses(FalsePositive, classes, truth, guesses) == |truth| - correct
      && SumClasses(FalseNegative, classes, truth, guesses) == |truth| - correct
      && SumClasses(InRow(actual), classes, truth, guesses) == Count(Labelled, actual, truth, guesses)
      && SumClasses(Labelled, classes, truth, guesses) == |truth|
  {
    SumIsBase(Hit, classes, truth, guesses);
    SumIsBase(FalsePositive, classes, truth, guesses);
    SumIsBase(FalseNegative, classes, truth, guesses);
    SumIsBase(InRow(actual), classes, truth, guesses);
    SumIsBase(Labelled, classes, truth, guesses);
    BaseCounts(truth, guesses, actual);
  }

  // ---------------------------------------------------------------- the matrix

  function Sum(row: seq<nat>): nat {
    if row == [] then 0 else Sum(row[..|row| - 1]) + row[|row| - 1]
  }

  function SumMatrix(matrix: seq<seq<nat>>): nat {
    if matrix == [] then 0 else SumMatrix(matrix[..|matrix| - 1]) + Sum(matrix[|matrix| - 1])
  }

  /** Micro-averaged F1 from summed counts. */
  function MicroF1(tp: nat, fp: nat, fn: nat): real
    requires tp + fp + fn > 0
  {
    2.0 * tp as real / (2 * tp + fp + fn) as real
  }

  lemma HalfFraction(c: nat, n: nat)
    requires 0 < n && c <= n
    ensures MicroF1(c, n - c, n - c) == c as real / n as real
  {
    var q := c as real / n as real;
    assert q * (2 * n) as real == 2.0 * c as real by {
      assert (2 * n) as real == 2.0 * n as real;
      assert q * n as real == c as real;
    }
    assert 2 * c + (n - c) + (n - c) == 2 * n;
  }

  /** The matrix over the sorted classes, the per-class error sums and the reported micro F1. */
  method MulticlassMetrics(truth: seq<int>, guesses: seq<int>, classes: seq<int>)
    returns (confusion: seq<seq<nat>>, tps: nat, fps: nat, fns: nat, microF1: real)
    requires |truth| == |guesses| && |truth| >= 1
    requires Ascending(classes) && Covers(classes, truth) && Covers(classes, guesses)
    ensures |confusion| == |classes|
    ensures forall i :: 0 <= i < |classes| ==> |confusion[i]| == |classes|
    ensures forall i, j :: 0 <= i < |classes| && 0 <= j < |classes| ==>
      confusion[i][j] == Count(InRow(classes[i]), classes[j], truth, guesses)
    ensures SumMatrix(confusion) == |truth|
    ensures tps == BaseCount(Hit, truth, guesses) && fps == fns == |truth| - tps
    ensures microF1 == MicroF1(tps, fps, fns) == tps as real / |truth| as real
  {
    hide Count, SumClasses, BaseCount, Sum, SumMatrix, MicroF1, Ascending, Covers;
    confusion, tps, fps, fns := [], 0, 0, 0;
    NothingSummed();
    assert classes[..0] == [];
    var i := 0;
    while i < |classes|
      invariant 0 <= i <= |classes| && |confusion| == i
      invariant forall k :: 0 <= k < i ==> |confusion[k]| == |classes|
      invariant forall k, j :: 0 <= k < i && 0 <= j < |classes| ==>
        confusion[k][j] == Count(InRow(classes[k]), classes[j], truth, guesses)
      invariant SumMatrix(confusion) == SumClasses(Labelled, classes[..i], truth, guesses)
      invariant tps == SumClasses(Hit, classes[..i], truth, guesses)
      invariant fps == SumClasses(FalsePositive, classes[..i], truth, guesses)
      invariant fns == SumClasses(FalseNegative, classes[..i], truth, guesses)
    {
      var actual := classes[i];
      var row := MatrixRow(truth, guesses, classes, actual);
      ClassSums(classes, truth, guesses, actual);
      MatrixMore(confusion, row);
      ClassesMore(classes, i, truth, guesses);
      confusion := confusion + [row];
      tps := tps + Count(Hit, actual, truth, guesses);
      fps := fps + Count(FalsePositive, actual, truth, guesses);
      fns := fns + Count(FalseNegative, actual, truth, guesses);
      i := i + 1;
    }
    assert classes[..i] == classes;
    ClassSums(classes, truth, guesses, 0);
    HalfFraction(tps, |truth|);
    microF1 := tps as real / |truth| as real;
  }

  lemma NothingSummed()
    ensures SumMatrix([]) == 0
    ensures forall kind, truth, guesses :: |truth| == |guesses| ==> SumClasses(kind, [], truth, guesses) == 0
  {
  }

  lemma MatrixMore(matrix: seq<seq<nat>>, row: seq<nat>)
    ensures SumMatrix(matrix + [row]) == SumMatrix(matrix) + Sum(row)
  {
    assert (matrix + [row])[..|matrix|] == matrix;
  }

  lemma ClassesMore(classes: seq<int>, i: nat, truth: seq<int>, guesses: seq<int>)
    requires i < |classes| && |truth| == |guesses|
    ensures var next := classes[..i + 1]; forall kind ::
      SumClasses(kind, next, truth, guesses) ==
      SumClasses(kind, classes[..i], truth, guesses) + Count(kind, classes[i], truth, guesses)
  {
    assert classes[..i + 1][..i] == classes[..i];
  }

  method MatrixRow(truth: seq<int>, guesses: seq<int>, classes: seq<int>, actual: int) returns (row: seq<nat>)
    requires |truth| == |guesses|
    ensures |row| == |classes|
    ensures forall j :: 0 <= j < |classes| ==> row[j] == Count(InRow(actual), classes[j], truth, guesses)
    ensures Sum(row) == SumClasses(InRow(actual), classes, truth, guesses)
  {
    row := [];
    var j := 0;
    while j < |classes|
      invariant 0 <= j <= |classes| && |row| == j
      invariant forall k :: 0 <= k < j ==> row[k] == Count(InRow(actual), classes[k], truth, guesses)
      invariant Sum(row) == SumClasses(InRow(actual), classes[..j], truth, guesses)
    {
      var cell := Count(InRow(actual), classes[j], truth, guesses);
      assert (row + [cell])[..j] == row && classes[..j + 1][..j] == classes[..j];
      row := row + [cell];
      j := j + 1;
    }
    assert classes[..j] == classes;
  }
}
