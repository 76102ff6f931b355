/** The windowed degradation guard. */
module ModelGuard {

  datatype Float = Finite(value: real) | NotFinite

  datatype Advice = RestoreRecommended | Regressing | Stable

  datatype Assessment =
    | InsufficientEvidence
    | Assessed(advice: Advice, window: seq<real>, consecutive: nat, restore: bool)

  const WINDOW: nat := 8

  function FiniteValues(scores: seq<Float>): seq<real> {
    if scores == [] then []
    else
      var last := scores[|scores| - 1];
      FiniteValues(scores[..|scores| - 1]) + if last.Finite? then [last.value] else []
  }

  function Tail<T>(xs: seq<T>, count: nat): seq<T> {
    if |xs| <= count then xs else xs[|xs| - count..]
  }

  /** How many scores at the end of the sequence lie below the threshold without interruption. */
  function TrailingBelow(scores: seq<real>, threshold: real): nat {
    if scores == [] || scores[|scores| - 1] >= threshold then 0
    else 1 + TrailingBelow(scores[..|scores| - 1], threshold)
  }

  lemma {:induction false} TrailingBelowIsMaximal(scores: seq<real>, threshold: real)
    ensures var n := TrailingBelow(scores, threshold);
      && n <= |scores|
      && (forall i :: |scores| - n <= i < |scores| ==> scores[i] < threshold)
      && (n < |scores| ==> scores[|scores| - 1 - n] >= threshold)
  {
    if scores != [] { TrailingBelowIsMaximal(scores[..|scores| - 1], threshold); }
  }

  method AssessTrend(scores: seq<Float>, bestScore: real, margin: real, patience: nat) returns (a: Assessment)
    ensures var window := FiniteValues(Tail(scores, WINDOW));
      if window == [] then a == InsufficientEvidence
      else
        && a.Assessed?
        && a.window == window
        && a.consecutive == TrailingBelow(window, bestScore - margin)
        && (a.restore <==> a.consecutive >= patience)
        && (a.advice == RestoreRecommended <==> a.restore)
        && (a.advice == Stable <==> !a.restore && window[|window| - 1] >= bestScore - margin)
  {
    var window := FiniteValues(Tail(scores, WINDOW));
    if window == [] { return InsufficientEvidence; }
    var threshold := bestScore - margin;
    var consecutive := 0;
    var i := |window|;
    assert window[..i] == window;
    while i > 0
      invariant 0 <= i <= |window| && consecutive == |window| - i
      invariant TrailingBelow(window, threshold) == consecutive + TrailingBelow(window[..i], threshold)
    {
      assert window[..i][..i - 1] == window[..i - 1];
      if window[i - 1] >= threshold { break; }
      consecutive := consecutive + 1;
      i := i - 1;
    }
    var restore := consecutive >= patience;
    var advice := if restore then RestoreRecommended
                  else if window[|window| - 1] < threshold then Regressing else Stable;
    a := Assessed(advice, window, consecutive, restore);
  }

  /** The finite values of joined scores are joined; one score gives its value or nothing. */
  lemma {:induction false} FiniteValuesOfJoined(front: seq<Float>, rest: seq<Float>)
    ensures FiniteValues(front + rest) == FiniteValues(front) + FiniteValues(rest)
    ensures forall value :: rest == [Finite(value)] ==> FiniteValues(rest) == [value]
    ensures rest == [NotFinite] ==> FiniteValues(rest) == []
    decreases |rest|
  {
    if rest == [] {
      assert front + rest == front;
    } else {
      FiniteValuesOfJoined(front, rest[..|rest| - 1]);
      assert (front + rest)[..|front + rest| - 1] == front + rest[..|rest| - 1];
    }
  }

  /** The guard looks at the last eight scores, or at all of them if there are fewer. */
  lemma WindowIsTheLastEight(earlier: seq<Float>, recent: seq<Float>)
    requires |recent| == 8 || (|recent| < 8 && earlier == [])
    ensures Tail(earlier + recent, WINDOW) == recent
  {
  }

  lemma {:induction false} FiniteValuesOfFinite(values: seq<real>)
    ensures FiniteValues(seq(|values|, i requires 0 <= i < |values| => Finite(values[i]))) == values
  {
    var scores := seq(|values|, i requires 0 <= i < |values| => Finite(values[i]));
    if values != [] {
      var init := values[..|values| - 1];
      FiniteValuesOfFinite(init);
      assert scores[..|scores| - 1] == seq(|init|, i requires 0 <= i < |init| => Finite(init[i]));
    }
  }

  lemma TrailingBelowSnoc(scores: seq<real>, score: real, threshold: real)
    ensures TrailingBelow(scores + [score], threshold) ==
            if score < threshold then 1 + TrailingBelow(scores, threshold) else 0
  {
    assert (scores + [score])[..|scores|] == scores;
  }

  lemma NothingTrails(threshold: real)
    ensures TrailingBelow([], threshold) == 0
  {
  }

  /** Looking only at the last few scores caps the trailing count at the size of that window. */
  lemma {:induction false} TrailingOfTail(scores: seq<real>, count: nat, threshold: real)
    ensures TrailingBelow(Tail(scores, count), threshold) ==
            if TrailingBelow(scores, threshold) < count then TrailingBelow(scores, threshold) else |Tail(scores, count)|
    decreases |scores|
  {
    hide TrailingBelow;
    NothingTrails(threshold);
    var tail := Tail(scores, count);
    if count == 0 {
      assert tail == [];
    } else if scores != [] {
      var init, last := scores[..|scores| - 1], scores[|scores| - 1];
      TrailingOfTail(init, count - 1, threshold);
      assert tail == Tail(init, count - 1) + [last] && scores == init + [last];
      TrailingBelowSnoc(init, last, threshold);
      TrailingBelowSnoc(Tail(init, count - 1), last, threshold);
      TrailingBelowIsMaximal(init, threshold);
    }
  }
}
