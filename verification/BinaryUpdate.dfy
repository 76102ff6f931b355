/** One gradient step of the binary model, row by row and partitioned over threads. */
module BinaryUpdate {
  import opened Mixer

  type Vector = seq<real>

  // ---------------------------------------------------------------- sums over rows

  /** The sum of f over a list of row numbers. */
  ghost function SumOver(f: nat -> real, rows: seq<nat>): real {
    if rows == [] then 0.0 else SumOver(f, rows[..|rows| - 1]) + f(rows[|rows| - 1])
  }

  ghost function Count(n: nat): (s: seq<nat>)
    ensures |s| == n && forall i :: 0 <= i < n ==> s[i] == i
  {
    seq(n, i => i)
  }

  lemma {:induction false} SumConcat(f: nat -> real, a: seq<nat>, b: seq<nat>)
    ensures SumOver(f, a + b) == SumOver(f, a) + SumOver(f, b)
    decreases |b|
  {
    if b == [] {
      assert a + b == a;
    } else {
      assert (a + b)[..|a + b| - 1] == a + b[..|b| - 1];
      SumConcat(f, a, b[..|b| - 1]);
    }
  }

  /** Over exact numbers the order of the rows does not matter. */
  lemma {:induction false} SumOfPermutation(f: nat -> real, a: seq<nat>, b: seq<nat>)
    requires multiset(a) == multiset(b)
    ensures SumOver(f, a) == SumOver(f, b)
    decreases |a|
  {
    if a == [] {
      assert |multiset(b)| == 0;
    } else {
      var last := a[|a| - 1];
      assert last in multiset(b);
      var i :| 0 <= i < |b| && b[i] == last;
      var init, rest := a[..|a| - 1], b[..i] + b[i + 1..];
      assert a == init + [last];
      assert b == b[..i] + [last] + b[i + 1..];
      assert multiset(init) == multiset(a) - multiset{last};
      assert multiset(rest) == multiset(b) - multiset{last};
      SumOfPermutation(f, init, rest);
      SumConcat(f, b[..i], b[i + 1..]);
      SumConcat(f, b[..i] + [last], b[i + 1..]);
      SumConcat(f, b[..i], [last]);
    }
  }

  /** The rows of a schedule that one thread executes. */
  ghost function Owned(order: seq<nat>, owner: seq<nat>, thread: nat): seq<nat>
    requires |order| == |owner|
  {
    if order == [] then []
    else
      var n := |order| - 1;
      Owned(order[..n], owner[..n], thread) + if owner[n] == thread then [order[n]] else []
  }

  /** The per-thread sums of the first `threads` threads, added up. */
  ghost function SumThreads(f: nat -> real, order: seq<nat>, owner: seq<nat>, threads: nat): real
    requires |order| == |owner|
  {
    if threads == 0 then 0.0
    else SumThreads(f, order, owner, threads - 1) + SumOver(f, Owned(order, owner, threads - 1))
  }

  lemma OwnedStep(f: nat -> real, order: seq<nat>, owner: seq<nat>, thread: nat)
    requires |order| == |owner| && order != []
    ensures var n := |order| - 1;
      SumOver(f, Owned(order, owner, thread)) ==
        SumOver(f, Owned(order[..n], owner[..n], thread)) + if owner[n] == thread then f(order[n]) else 0.0
  {
    var n := |order| - 1;
    var before := Owned(order[..n], owner[..n], thread);
    if owner[n] == thread {
      assert (before + [order[n]])[..|before|] == before;
    } else {
      assert before + [] == before;
    }
  }

  /** Appending one row to a sum. */
  lemma SumMore(f: nat -> real, rows: seq<nat>, row: nat)
    ensures SumOver(f, rows + [row]) == SumOver(f, rows) + f(row)
  {
    assert (rows + [row])[..|rows|] == rows;
  }

  lemma {:induction false} SumThreadsStep(f: nat -> real, order: seq<nat>, owner: seq<nat>, threads: nat)
    requires |order| == |owner| && order != []
    ensures var n := |order| - 1;
      SumThreads(f, order, owner, threads) ==
        SumThreads(f, order[..n], owner[..n], threads) + if owner[n] < threads then f(order[n]) else 0.0
    decreases threads
  {
    hide SumOver, Owned;
    if threads > 0 {
      SumThreadsStep(f, order, owner, threads - 1);
      OwnedStep(f, order, owner, threads - 1);
    }
  }

  lemma {:induction false} EmptySumThreads(f: nat -> real, threads: nat)
    ensures SumThreads(f, [], [], threads) == 0.0
  {
    if threads > 0 { EmptySumThreads(f, threads - 1); }
  }

  /** Partitioning a sum over threads loses and repeats nothing. */
  lemma {:induction false} PartitionedSum(f: nat -> real, order: seq<nat>, owner: seq<nat>, threads: nat)
    requires |order| == |owner| && forall i :: 0 <= i < |owner| ==> owner[i] < threads
    ensures SumThreads(f, order, owner, threads) == SumOver(f, order)
    decreases |order|
  {
    if order == [] {
      EmptySumThreads(f, threads);
    } else {
      var n := |order| - 1;
      PartitionedSum(f, order[..n], owner[..n], threads);
      SumThreadsStep(f, order, owner, threads);
    }
  }

  lemma SumOfOne(f: nat -> real)
    ensures SumOver(f, Count(1)) == f(0)
  {
    assert Count(1) == [0] && [0][..0] == [];
    SumMore(f, [], 0);
    assert [] + [0] == [0];
  }

  lemma MeanOfOne(rate: real, sum: real, rest: real)
    ensures rate * (sum * (1.0 / 1.0) + rest) == rate * (sum + rest) && rate * sum * (1.0 / 1.0) == rate * sum
  {
  }

  lemma NoRows()
    ensures Count(0) == [] && forall f: nat -> real :: SumOver(f, []) == 0.0
  {
  }

  // ---------------------------------------------------------------- the model

  function Dot(row: Vector, weights: Vector): real
    requires |row| == |weights|
  {
    if row == [] then 0.0
    else Dot(row[..|row| - 1], weights[..|row| - 1]) + row[|row| - 1] * weights[|row| - 1]
  }

  function Products(row: Vector, weights: Vector): nat -> real {
    (i: nat) => if i < |row| && i < |weights| then row[i] * weights[i] else 0.0
  }

  /** The score is the sum of the products of all features. */
  lemma {:induction false} DotIsSum(row: Vector, weights: Vector)
    requires |row| == |weights|
    ensures Dot(row, weights) == SumOver(Products(row, weights), Count(|row|))
  {
    if row == [] {
      assert Count(0) == [];
    } else {
      var n := |row| - 1;
      DotIsSum(row[..n], weights[..n]);
      assert Count(n + 1) == Count(n) + [n];
      SumMore(Products(row, weights), Count(n), n);
      SumOfSame(Products(row[..n], weights[..n]), Products(row, weights), Count(n));
    }
  }

  lemma {:induction false} SumOfSame(f: nat -> real, g: nat -> real, rows: seq<nat>)
    requires forall i :: 0 <= i < |rows| ==> f(rows[i]) == g(rows[i])
    ensures SumOver(f, rows) == SumOver(g, rows)
  {
    if rows != [] { SumOfSame(f, g, rows[..|rows| - 1]); }
  }

  /** Every feature moves the score by its own value for each unit of its weight, and without weights there is no
      score. */
  lemma {:induction false} DotIsLinear(row: Vector, weights: Vector, i: nat, d: real)
    requires |row| == |weights| && i < |row|
    ensures Dot(row, weights[i := weights[i] + d]) == Dot(row, weights) + d * row[i]
    ensures (forall j :: 0 <= j < |weights| ==> weights[j] == 0.0) ==> Dot(row, weights) == 0.0
  {
    var n := |row| - 1;
    var moved := weights[i := weights[i] + d];
    if i < n {
      assert moved[..n] == weights[..n][i := weights[i] + d];
      DotIsLinear(row[..n], weights[..n], i, d);
    } else {
      assert moved[..n] == weights[..n];
      if n > 0 { DotIsLinear(row[..n], weights[..n], 0, 0.0); }
    }
  }

  class Model {
    const sigmoid: real -> real
    const crossEntropy: (real, real) -> real
    const learningRate: real
    const decay: real
    const features: nat
    var weights: array<real>
    var bias: real
    var gradient: array<real>
    // per-thread workspace, kept between calls: it may be larger than needed and hold old values
    var threadGradient: array2<real>
    var threadBias: array<real>
    var threadLoss: array<real>
    var rngState: Word

    constructor (features: nat, sigmoid: real -> real, crossEntropy: (real, real) -> real,
                 learningRate: real, decay: real)
      ensures Valid()
    {
      this.features, this.sigmoid, this.crossEntropy := features, sigmoid, crossEntropy;
      this.learningRate, this.decay := learningRate, decay;
      weights, gradient := new real[features](_ => 0.0), new real[features](_ => 0.0);
      bias, rngState := 0.0, 42;
      threadGradient := new real[0, features]((_, _) => 0.0);
      threadBias, threadLoss := new real[0](_ => 0.0), new real[0](_ => 0.0);
    }

    ghost predicate Valid()
      reads this
    {
      && weights.Length == gradient.Length == features && weights != gradient
      && threadGradient.Length1 == features
      && threadBias != threadLoss
      && weights !in {gradient, threadBias, threadLoss} && gradient !in {threadBias, threadLoss}
    }

    ghost predicate Batch(x: seq<Vector>, y: Vector) {
      |x| == |y| && |x| >= 1 && forall i :: 0 <= i < |x| ==> |x[i]| == features
    }

    /** The error of a row under given weights. */
    function Error(x: seq<Vector>, y: Vector, w: Vector, b: real, i: nat): real {
      if i < |x| && i < |y| && |x[i]| == |w| then sigmoid(Dot(x[i], w) + b) - y[i] else 0.0
    }

    function Slope(x: seq<Vector>, y: Vector, w: Vector, b: real, j: nat): nat -> real {
      (i: nat) => if i < |x| && j < |x[i]| then x[i][j] * Error(x, y, w, b, i) else 0.0
    }

    function Errors(x: seq<Vector>, y: Vector, w: Vector, b: real): nat -> real {
      (i: nat) => Error(x, y, w, b, i)
    }

    function Losses(x: seq<Vector>, y: Vector, w: Vector, b: real, report: bool): nat -> real {
      (i: nat) => if report && i < |x| && i < |y| && |x[i]| == |w|
                  then crossEntropy(y[i], sigmoid(Dot(x[i], w) + b)) else 0.0
    }

    /** The weights and bias after one exact gradient step, and the mean loss it reports. */
    ghost predicate Updated(x: seq<Vector>, y: Vector, w: Vector, b: real,
      w': Vector, b': real, loss: real, report: bool)
      requires |x| >= 1
    {
      var n, rows := |x| as real, Count(|x|);
      && |w'| == |w|
      && (forall j :: 0 <= j < |w| ==>
            w'[j] == w[j] - learningRate * (SumOver(Slope(x, y, w, b, j), rows) * (1.0 / n) + decay * w[j]))
      && b' == b - learningRate * SumOver(Errors(x, y, w, b), rows) * (1.0 / n)
      && loss == SumOver(Losses(x, y, w, b, report), rows) / n
    }

    method AddScaled(row: Vector, scale: real)
      requires Valid() && |row| == features
      modifies gradient
      ensures forall j :: 0 <= j < features ==> gradient[j] == old(gradient[j]) + row[j] * scale
    {
      var j := 0;
      while j < features
        invariant 0 <= j <= features
        invariant forall k :: 0 <= k < features ==>
          gradient[k] == if k < j then old(gradient[k]) + row[k] * scale else old(gradient[k])
      {
        gradient[j] := gradient[j] + row[j] * scale;
        j := j + 1;
      }
    }

    method UpdateWeights(inverse: real)
      requires Valid()
      modifies weights
      ensures forall j :: 0 <= j < features ==>
        weights[j] == old(weights[j]) - learningRate * (gradient[j] * inverse + decay * old(weights[j]))
    {
      var j := 0;
      while j < features
        invariant 0 <= j <= features
        invariant forall k :: j <= k < features ==> weights[k] == old(weights[k])
        invariant forall k :: 0 <= k < j ==>
          weights[k] == old(weights[k]) - learningRate * (gradient[k] * inverse + decay * old(weights[k]))
      {
        weights[j] := weights[j] - learningRate * (gradient[j] * inverse + decay * weights[j]);
        j := j + 1;
      }
    }

    method ClearGradient()
      requires Valid()
      modifies gradient
      ensures forall j :: 0 <= j < features ==> gradient[j] == 0.0
    {
      forall j | 0 <= j < features { gradient[j] := 0.0; }
    }

    /** Apply accumulated sums: shared by both forms. */
    method ApplyUpdate(ghost x: seq<Vector>, ghost y: Vector, rows: nat, biasGradient: real,
                       totalLoss: real, report: bool)
      returns (loss: real)
      requires Valid() && Batch(x, y) && rows == |x|
      requires forall j :: 0 <= j < features ==>
        gradient[j] == SumOver(Slope(x, y, weights[..], bias, j), Count(|x|))
      requires biasGradient == SumOver(Errors(x, y, weights[..], bias), Count(|x|))
      requires totalLoss == SumOver(Losses(x, y, weights[..], bias, report), Count(|x|))
      modifies this`bias, weights
      ensures Valid() && Updated(x, y, old(weights[..]), old(bias), weights[..], bias, loss, report)
    {
      hide SumOver, Slope, Errors, Losses;
      var inverse := 1.0 / rows as real;
      UpdateWeights(inverse);
      bias := bias - learningRate * biasGradient * inverse;
      loss := totalLoss / rows as real;
    }

    /** What one row contributes. */
    lemma AtRow(x: seq<Vector>, y: Vector, w: Vector, b: real, report: bool, i: nat)
      requires Batch(x, y) && i < |x| && |w| == features
      ensures var probability := sigmoid(Dot(x[i], w) + b);
        && Errors(x, y, w, b)(i) == probability - y[i]
        && Losses(x, y, w, b, report)(i) == (if report then crossEntropy(y[i], probability) else 0.0)
        && forall j :: 0 <= j < features ==> Slope(x, y, w, b, j)(i) == x[i][j] * (probability - y[i])
    {
    }

    method TrainBinary(x: seq<Vector>, y: Vector, report: bool) returns (loss: real)
      requires Valid() && Batch(x, y)
      modifies this`bias, weights, gradient
      ensures Valid() && Updated(x, y, old(weights[..]), old(bias), weights[..], bias, loss, report)
    {
      hide SumOver, Slope, Errors, Losses, Error, Updated;
      ClearGradient();
      var biasGradient, totalLoss := 0.0, 0.0;
      var i := 0;
      ghost var w := weights[..];
      NoRows();
      while i < |x|
        invariant 0 <= i <= |x| && weights[..] == w && bias == old(bias)
        invariant forall j :: 0 <= j < features ==> gradient[j] == SumOver(Slope(x, y, w, bias, j), Count(i))
        invariant biasGradient == SumOver(Errors(x, y, w, bias), Count(i))
        invariant totalLoss == SumOver(Losses(x, y, w, bias, report), Count(i))
      {
        var probability := sigmoid(Dot(x[i], weights[..]) + bias);
        var error := probability - y[i];
        if report { totalLoss := totalLoss + crossEntropy(y[i], probability); }
        biasGradient := biasGradient + error;
        AddScaled(x[i], error);
        assert Count(i + 1) == Count(i) + [i];
        AtRow(x, y, w, bias, report, i);
        SumMore(Errors(x, y, w, bias), Count(i), i);
        SumMore(Losses(x, y, w, bias, report), Count(i), i);
        forall j | 0 <= j < features
          ensures SumOver(Slope(x, y, w, bias, j), Count(i + 1)) ==
            SumOver(Slope(x, y, w, bias, j), Count(i)) + x[i][j] * error
        {
          SumMore(Slope(x, y, w, bias, j), Count(i), i);
        }
        i := i + 1;
      }
      loss := ApplyUpdate(x, y, |x|, biasGradient, totalLoss, report);
    }

    // ---------------------------------------------------------------- the partitioned form

    method ResetWorkspace(threads: nat)
      requires Valid()
      modifies this`threadGradient, this`threadBias, this`threadLoss, threadGradient, threadBias, threadLoss
      ensures Valid()
      ensures fresh(threadGradient) || threadGradient == old(threadGradient)
      ensures fresh(threadBias) || threadBias == old(threadBias)
      ensures fresh(threadLoss) || threadLoss == old(threadLoss)
      ensures threadGradient.Length0 >= threads && threadBias.Length >= threads && threadLoss.Length >= threads
      ensures forall t, j :: 0 <= t < threads && 0 <= j < features ==> threadGradient[t, j] == 0.0
      ensures forall t :: 0 <= t < threads ==> threadBias[t] == 0.0 && threadLoss[t] == 0.0
    {
      if threadGradient.Length0 < threads { threadGradient := new real[threads, features]((_, _) => 0.0); }
      if threadBias.Length < threads { threadBias := new real[threads](_ => 0.0); }
      if threadLoss.Length < threads { threadLoss := new real[threads](_ => 0.0); }
      forall t, j | 0 <= t < threads && 0 <= j < features { threadGradient[t, j] := 0.0; }
      forall t | 0 <= t < threads { threadBias[t] := 0.0; }
      forall t | 0 <= t < threads { threadLoss[t] := 0.0; }
    }

    method AddScaledTo(thread: nat, row: Vector, scale: real)
      requires Valid() && |row| == features && thread < threadGradient.Length0
      modifies threadGradient
      ensures forall t, j :: 0 <= t < threadGradient.Length0 && 0 <= j < features ==>
        threadGradient[t, j] == old(threadGradient[t, j]) + if t == thread then row[j] * scale else 0.0
    {
      var j := 0;
      while j < features
        invariant 0 <= j <= features
        invariant forall t, k :: 0 <= t < threadGradient.Length0 && 0 <= k < features ==>
          threadGradient[t, k] == old(threadGradient[t, k]) + if t == thread && k < j then row[k] * scale else 0.0
      {
        threadGradient[thread, j] := threadGradient[thread, j] + row[j] * scale;
        j := j + 1;
      }
    }

    /** A schedule runs every row once, each on some thread, in any interleaving. */
    ghost predicate Schedule(order: seq<nat>, owner: seq<nat>, rows: nat, threads: nat) {
      && |order| == |owner| == rows
      && multiset(order) == multiset(Count(rows))
      && (forall k :: 0 <= k < rows ==> order[k] < rows)
      && (forall k :: 0 <= k < rows ==> owner[k] < threads)
    }

    /** Row `order[k]` runs on thread `owner[k]`, which adds to its own slice only; the slices are then
        reduced. The model that results is the sequential one. */
    method TrainBinaryParallel(x: seq<Vector>, y: Vector, report: bool, threads: nat, order: seq<nat>, owner: seq<nat>)
      returns (loss: real)
      requires Valid() && Batch(x, y) && Schedule(order, owner, |x|, threads)
      modifies this`bias, this`threadGradient, this`threadBias, this`threadLoss
      modifies weights, gradient, threadGradient, threadBias, threadLoss
      ensures Valid() && Updated(x, y, old(weights[..]), old(bias), weights[..], bias, loss, report)
    {
      hide SumOver, SumThreads, Slope, Errors, Losses, Updated;
      ResetWorkspace(threads);
      ghost var w := weights[..];
      RunRows(x, y, report, threads, order, owner);
      ClearGradient();
      var biasGradient, totalLoss := 0.0, 0.0;
      var t := 0;
      ghost var bs, ls := Errors(x, y, w, bias), Losses(x, y, w, bias, report);
      NoThreads(order, owner);
      while t < threads
        invariant 0 <= t <= threads && Valid() && weights[..] == w && bias == old(bias)
        invariant threadGradient.Length0 >= threads && threadBias.Length >= threads && threadLoss.Length >= threads
        invariant weights == old(weights) && gradient == old(gradient)
        invariant Partitioned(x, y, w, bias, report, threads, order, owner)
        invariant forall j :: 0 <= j < features ==>
          gradient[j] == SumThreads(Slope(x, y, w, bias, j), order, owner, t)
        invariant biasGradient == SumThreads(bs, order, owner, t) && totalLoss == SumThreads(ls, order, owner, t)
      {
        AddSlice(t);
        biasGradient := biasGradient + threadBias[t];
        totalLoss := totalLoss + threadLoss[t];
        forall f: nat -> real
          ensures SumThreads(f, order, owner, t + 1) ==
            SumThreads(f, order, owner, t) + SumOver(f, Owned(order, owner, t))
        {
          MoreThreads(f, order, owner, t);
        }
        t := t + 1;
      }
      forall f: nat -> real
        ensures SumThreads(f, order, owner, threads) == SumOver(f, Count(|x|))
      {
        PartitionedSum(f, order, owner, threads);
        SumOfPermutation(f, order, Count(|x|));
      }
      loss := ApplyUpdate(x, y, |x|, biasGradient, totalLoss, report);
    }

    /** Each thread's slice and accumulators hold the sums of its own rows. */
    ghost predicate Partitioned(x: seq<Vector>, y: Vector, w: Vector, b: real, report: bool, threads: nat,
                                order: seq<nat>, owner: seq<nat>)
      requires |order| == |owner| && Valid()
      requires threadGradient.Length0 >= threads && threadBias.Length >= threads && threadLoss.Length >= threads
      reads this, threadGradient, threadBias, threadLoss
    {
      && (forall t, j :: 0 <= t < threads && 0 <= j < features ==>
            threadGradient[t, j] == SumOver(Slope(x, y, w, b, j), Owned(order, owner, t)))
      && (forall t :: 0 <= t < threads ==> threadBias[t] == SumOver(Errors(x, y, w, b), Owned(order, owner, t)))
      && (forall t :: 0 <= t < threads ==> threadLoss[t] == SumOver(Losses(x, y, w, b, report), Owned(order, owner, t)))
    }

    method RunRows(x: seq<Vector>, y: Vector, report: bool, threads: nat, order: seq<nat>, owner: seq<nat>)
      requires Valid() && Batch(x, y) && Schedule(order, owner, |x|, threads)
      requires threadGradient.Length0 >= threads && threadBias.Length >= threads && threadLoss.Length >= threads
      requires forall t, j :: 0 <= t < threads && 0 <= j < features ==> threadGradient[t, j] == 0.0
      modifies threadGradient, threadBias, threadLoss
      ensures Partitioned(x, y, weights[..], bias, report, threads, order, owner)
    {
      hide SumOver, Owned, Slope, Errors, Losses, Error;
      // every thread keeps its bias and loss in locals until it is done
      var localBias, localLoss := seq(threads, _ => 0.0), seq(threads, _ => 0.0);
      ghost var w := weights[..];
      var k := 0;
      NothingOwned(threads);
      assert order[..0] == [] && owner[..0] == [];
      while k < |order|
        invariant 0 <= k <= |order| && |localBias| == |localLoss| == threads && weights[..] == w
        invariant forall t, j :: 0 <= t < threads && 0 <= j < features ==>
          threadGradient[t, j] == SumOver(Slope(x, y, w, bias, j), Owned(order[..k], owner[..k], t))
        invariant forall t :: 0 <= t < threads ==>
          localBias[t] == SumOver(Errors(x, y, w, bias), Owned(order[..k], owner[..k], t))
        invariant forall t :: 0 <= t < threads ==>
          localLoss[t] == SumOver(Losses(x, y, w, bias, report), Owned(order[..k], owner[..k], t))
      {
        localBias, localLoss := RunRow(x, y, report, threads, order[k], owner[k], localBias, localLoss);
        ghost var done, owned, done', owned' := order[..k], owner[..k], order[..k + 1], owner[..k + 1];
        assert done'[..k] == done && owned'[..k] == owned;
        forall t, j | 0 <= t < threads && 0 <= j < features
          ensures threadGradient[t, j] == SumOver(Slope(x, y, w, bias, j), Owned(done', owned', t))
        {
          OwnedStep(Slope(x, y, w, bias, j), done', owned', t);
        }
        forall t | 0 <= t < threads
          ensures localBias[t] == SumOver(Errors(x, y, w, bias), Owned(done', owned', t))
          ensures localLoss[t] == SumOver(Losses(x, y, w, bias, report), Owned(done', owned', t))
        {
          OwnedStep(Errors(x, y, w, bias), done', owned', t);
          OwnedStep(Losses(x, y, w, bias, report), done', owned', t);
        }
        k := k + 1;
      }
      assert order[..k] == order && owner[..k] == owner;
      Publish(threads, localBias, localLoss);
    }

    method RunRow(x: seq<Vector>, y: Vector, report: bool, threads: nat, row: nat, thread: nat,
                  localBias: seq<real>, localLoss: seq<real>) returns (newBias: seq<real>, newLoss: seq<real>)
      requires Valid() && Batch(x, y) && row < |x| && thread < threads == |localBias| == |localLoss|
      requires threadGradient.Length0 >= threads
      modifies threadGradient
      ensures |newBias| == |newLoss| == threads
      ensures forall t, j :: 0 <= t < threads && 0 <= j < features ==>
        threadGradient[t, j] == old(threadGradient[t, j])
          + if thread == t then Slope(x, y, weights[..], bias, j)(row) else 0.0
      ensures forall t :: 0 <= t < threads ==>
        newBias[t] == localBias[t] + if thread == t then Errors(x, y, weights[..], bias)(row) else 0.0
      ensures forall t :: 0 <= t < threads ==>
        newLoss[t] == localLoss[t] + if thread == t then Losses(x, y, weights[..], bias, report)(row) else 0.0
    {
      hide Slope, Errors, Losses, Error;
      newBias, newLoss := localBias, localLoss;
      var probability := sigmoid(Dot(x[row], weights[..]) + bias);
      var error := probability - y[row];
      AtRow(x, y, weights[..], bias, report, row);
      if report { newLoss := newLoss[thread := newLoss[thread] + crossEntropy(y[row], probability)]; }
      newBias := newBias[thread := newBias[thread] + error];
      AddScaledTo(thread, x[row], error);
    }

    /** The threads write their private accumulators to the workspace. */
    method Publish(threads: nat, localBias: seq<real>, localLoss: seq<real>)
      requires Valid() && |localBias| == |localLoss| == threads
      requires threadBias.Length >= threads && threadLoss.Length >= threads
      modifies threadBias, threadLoss
      ensures forall t :: 0 <= t < threads ==> threadBias[t] == localBias[t] && threadLoss[t] == localLoss[t]
    {
      forall t | 0 <= t < threads { threadBias[t] := localBias[t]; }
      forall t | 0 <= t < threads { threadLoss[t] := localLoss[t]; }
    }

    method AddSlice(thread: nat)
      requires Valid() && thread < threadGradient.Length0
      modifies gradient
      ensures forall j :: 0 <= j < features ==> gradient[j] == old(gradient[j]) + threadGradient[thread, j]
    {
      forall j | 0 <= j < features { gradient[j] := gradient[j] + threadGradient[thread, j]; }
    }

    // ---------------------------------------------------------------- random batches and bulk steps

    /** The parameters after one exact step, as a function. */
    ghost function Stepped(x: seq<Vector>, y: Vector, w: Vector, b: real): (Vector, real)
      requires |x| >= 1
    {
      var n, rows := |x| as real, Count(|x|);
      (seq(|w|, j requires 0 <= j < |w| =>
         w[j] - learningRate * (SumOver(Slope(x, y, w, b, j), rows) * (1.0 / n) + decay * w[j])),
       b - learningRate * SumOver(Errors(x, y, w, b), rows) * (1.0 / n))
    }

    /** An update is determined by the batch and the old parameters; the loss report does not touch them. */
    lemma UpdateIsDetermined(x: seq<Vector>, y: Vector, w: Vector, b: real,
      w': Vector, b': real, loss: real, report: bool)
      requires |x| >= 1 && Updated(x, y, w, b, w', b', loss, report)
      ensures (w', b') == Stepped(x, y, w, b)
      ensures loss == SumOver(Losses(x, y, w, b, report), Count(|x|)) / |x| as real
    {
      hide SumOver, Slope, Errors, Losses;
      var s := Stepped(x, y, w, b).0;
      forall j | 0 <= j < |w| ensures w'[j] == s[j] {}
      assert w' == s;
    }

    /** The step on one row: every weight follows its own feature times the error, and decays. */
    lemma StepOnOneRow(row: Vector, target: real, w: Vector, b: real, j: nat)
      requires |row| == |w| == features && j < features
      ensures var error := sigmoid(Dot(row, w) + b) - target;
        var (w', b') := Stepped([row], [target], w, b);
        && |w'| == |w| && b' == b - learningRate * error
        && w'[j] == w[j] - learningRate * (row[j] * error + decay * w[j])
    {
      hide SumOver, Slope, Errors, Losses, Count, Dot, Stepped;
      var x, y := [row], [target];
      SteppedParts(x, y, w, b);
      SumsOfOneRow(x, y, w, b, j);
      MeanOfOne(learningRate, SumOver(Errors(x, y, w, b), Count(1)), 0.0);
      MeanOfOne(learningRate, SumOver(Slope(x, y, w, b, j), Count(1)), decay * w[j]);
    }

    lemma SumsOfOneRow(x: seq<Vector>, y: Vector, w: Vector, b: real, j: nat)
      requires Batch(x, y) && |x| == 1 && |w| == features && j < features
      ensures var error := sigmoid(Dot(x[0], w) + b) - y[0];
        && SumOver(Errors(x, y, w, b), Count(1)) == error
        && SumOver(Slope(x, y, w, b, j), Count(1)) == x[0][j] * error
    {
      hide SumOver, Slope, Errors, Losses, Count, Dot;
      SumOfOne(Errors(x, y, w, b));
      SumOfOne(Slope(x, y, w, b, j));
      AtRow(x, y, w, b, false, 0);
    }

    lemma SteppedParts(x: seq<Vector>, y: Vector, w: Vector, b: real)
      requires |x| == 1
      ensures var (w', b') := Stepped(x, y, w, b);
        && |w'| == |w| && b' == b - learningRate * SumOver(Errors(x, y, w, b), Count(1)) * (1.0 / 1.0)
        && forall j :: 0 <= j < |w| ==>
          w'[j] == w[j] - learningRate * (SumOver(Slope(x, y, w, b, j), Count(1)) * (1.0 / 1.0) + decay * w[j])
    {
      hide SumOver, Slope, Errors, Losses, Count, Dot;
    }

    ghost function RandomStepped(x: seq<Vector>, y: Vector, size: nat, w: Vector, b: real, rng: Word)
      : (Vector, real, Word)
      requires |x| == |y| && |x| >= 1 && size >= 1
    {
      var drawn := Draws(rng, |x|, size);
      var (w', b') := Stepped(Gather(x, drawn), Gather(y, drawn), w, b);
      (w', b', After(rng, size))
    }

    /** The mean loss of one random batch under the parameters before its step. */
    ghost function RandomLoss(x: seq<Vector>, y: Vector, size: nat, w: Vector, b: real, rng: Word, report: bool): real
      requires |x| == |y| && |x| >= 1 && size >= 1
    {
      var drawn := Draws(rng, |x|, size);
      SumOver(Losses(Gather(x, drawn), Gather(y, drawn), w, b, report), Count(size)) / size as real
    }

    /** k single random steps, one after the other. */
    ghost function RandomSteps(x: seq<Vector>, y: Vector, size: nat, k: nat, w: Vector, b: real, rng: Word)
      : (Vector, real, Word)
      requires |x| == |y| && |x| >= 1 && size >= 1
    {
      if k == 0 then (w, b, rng)
      else
        var (w', b', rng') := RandomSteps(x, y, size, k - 1, w, b, rng);
        RandomStepped(x, y, size, w', b', rng')
    }

    /** One step on a batch drawn with replacement. */
    method TrainRandomStep(x: seq<Vector>, y: Vector, size: nat, report: bool) returns (ok: bool, loss: real)
      requires Valid() && |x| == |y| && forall i :: 0 <= i < |x| ==> |x[i]| == features
      modifies this`bias, this`rngState, weights, gradient
      ensures Valid()
      ensures ok <==> |x| != 0 && 1 <= size <= 1048576
      ensures !ok ==> weights[..] == old(weights[..]) && bias == old(bias) && rngState == old(rngState)
      ensures ok ==>
        && (weights[..], bias, rngState) == RandomStepped(x, y, size, old(weights[..]), old(bias), old(rngState))
        && loss == RandomLoss(x, y, size, old(weights[..]), old(bias), old(rngState), report)
    {
      hide Stepped, SumOver, Losses, Updated, Advance, Output;
      if |x| == 0 || size == 0 || size > 1048576 { return false, 0.0; }
      var drawn: seq<nat> := [];
      while |drawn| < size
        invariant |drawn| <= size && weights[..] == old(weights[..]) && bias == old(bias)
        invariant drawn == Draws(old(rngState), |x|, |drawn|) && rngState == After(old(rngState), |drawn|)
        decreases size - |drawn|
      {
        rngState := Advance(rngState);
        drawn := drawn + [Output(rngState) % |x|];
      }
      loss := TrainBinary(Gather(x, drawn), Gather(y, drawn), report);
      UpdateIsDetermined(Gather(x, drawn), Gather(y, drawn), old(weights[..]), old(bias),
                         weights[..], bias, loss, report);
      ok := true;
    }

    /** Bulk steps report only the last loss, and leave the model and its generator exactly where as many
        single steps would. */
    method TrainRandomSteps(x: seq<Vector>, y: Vector, size: nat, steps: nat) returns (ok: bool, loss: real)
      requires Valid() && |x| == |y| && forall i :: 0 <= i < |x| ==> |x[i]| == features
      modifies this`bias, this`rngState, weights, gradient
      ensures Valid()
      ensures ok <==> 1 <= steps <= 1000000 && |x| != 0 && 1 <= size <= 1048576
      ensures !ok ==> weights[..] == old(weights[..]) && bias == old(bias) && rngState == old(rngState)
      ensures ok ==>
        && (weights[..], bias, rngState) == RandomSteps(x, y, size, steps, old(weights[..]), old(bias), old(rngState))
        && var (w, b, rng) := RandomSteps(x, y, size, steps - 1, old(weights[..]), old(bias), old(rngState));
          loss == RandomLoss(x, y, size, w, b, rng, true)
    {
      hide RandomStepped, RandomLoss, Stepped, Draws;
      if steps == 0 || steps > 1000000 { return false, 0.0; }
      var step := 0;
      loss := 0.0;
      while step < steps
        invariant 0 <= step <= steps && Valid()
        invariant weights == old(weights) && gradient == old(gradient)
        invariant step > 0 ==> |x| != 0 && 1 <= size <= 1048576
        invariant step == 0 ==> weights[..] == old(weights[..]) && bias == old(bias) && rngState == old(rngState)
        invariant |x| != 0 && size >= 1 ==>
          (weights[..], bias, rngState) == RandomSteps(x, y, size, step, old(weights[..]), old(bias), old(rngState))
        invariant step == steps ==>
          var (w, b, rng) := RandomSteps(x, y, size, steps - 1, old(weights[..]), old(bias), old(rngState));
          loss == RandomLoss(x, y, size, w, b, rng, true)
      {
        var fine;
        fine, loss := TrainRandomStep(x, y, size, step + 1 == steps);
        if !fine { return false, 0.0; }
        step := step + 1;
      }
      ok := true;
    }
  }

  // ---------------------------------------------------------------- the generator of batches

  /** xorshift64* */
  function Advance(state: Word): Word {
    var s1 := XorShift(state, 12);
    var s2 := WordXor(s1, Wrap(s1 * 33554432));
    XorShift(s2, 27)
  }

  function Output(state: Word): Word {
    Wrap(state * 2685821657736338717)
  }

  /** The generator in powers of two: shifts by 12 to the right, 25 to the left and 27 to the right. */
  lemma AdvanceFormula(state: Word)
    ensures var a: nat := Xor(state, state / 0x1000);
      var b: nat := Xor(a, a * 0x200_0000 % 0x1_0000_0000_0000_0000);
      Advance(state) == Xor(b, b / 0x800_0000)
  {
    hide Xor, Shr, Pow2, XorShift;
    ShiftPowers();
    assert Pow2(12) == 0x1000 by { Pow12(); }
    XorShiftIsXor(state, 12);
    ShrIsDivision(state, 12);
    var a: int := XorShift(state, 12);
    var b := WordXor(a, Wrap(a * 0x200_0000));
    XorShiftIsXor(b, 27);
    ShrIsDivision(b, 27);
  }

  lemma Pow12()
    ensures Pow2(12) == 0x1000
  {
    assert Pow2(6) == 64;
    assert Pow2(12) == 64 * Pow2(6);
  }

  function After(state: Word, draws: nat): Word {
    if draws == 0 then state else Advance(After(state, draws - 1))
  }

  function Draws(state: Word, rows: nat, count: nat): (drawn: seq<nat>)
    requires rows >= 1
    ensures |drawn| == count && forall i :: 0 <= i < count ==> drawn[i] < rows
  {
    if count == 0 then [] else Draws(state, rows, count - 1) + [Output(After(state, count)) % rows]
  }

  /** The state advances before it is put out, and the multiplication wraps; more draws go on from there. */
  lemma FirstDraw(state: Word, rows: nat)
    requires rows >= 1
    ensures Draws(state, rows, 1) ==
      [(Advance(state) * 2685821657736338717) % 0x1_0000_0000_0000_0000 % rows]
  {
    hide Advance;
    assert After(state, 0) == state && Draws(state, rows, 0) == [];
  }

  lemma {:induction false} DrawsGoOn(state: Word, rows: nat, a: nat, b: nat)
    requires rows >= 1
    ensures Draws(state, rows, a + b) == Draws(state, rows, a) + Draws(After(state, a), rows, b)
    ensures After(state, a + b) == After(After(state, a), b)
    decreases b
  {
    hide Advance, Output;
    if b > 0 { DrawsGoOn(state, rows, a, b - 1); }
  }

  function Gather<T>(items: seq<T>, drawn: seq<nat>): (g: seq<T>)
    requires forall i :: 0 <= i < |drawn| ==> drawn[i] < |items|
    ensures |g| == |drawn| && forall i :: 0 <= i < |drawn| ==> g[i] == items[drawn[i]]
  {
    seq(|drawn|, i requires 0 <= i < |drawn| => items[drawn[i]])
  }

  lemma NothingOwned(threads: nat)
    ensures forall f: nat -> real, t: nat :: SumOver(f, Owned([], [], t)) == 0.0
  {
  }

  lemma NoThreads(order: seq<nat>, owner: seq<nat>)
    requires |order| == |owner|
    ensures forall f: nat -> real :: SumThreads(f, order, owner, 0) == 0.0
  {
  }

  lemma MoreThreads(f: nat -> real, order: seq<nat>, owner: seq<nat>, t: nat)
    requires |order| == |owner|
    ensures SumThreads(f, order, owner, t + 1) == SumThreads(f, order, owner, t) + SumOver(f, Owned(order, owner, t))
  {
  }
}
