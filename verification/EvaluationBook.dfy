/** The bookkeeping of validation scores in one pass of the worker loop. */
module EvaluationBook {
  import opened ModelGuard

  datatype Policy = Policy(
    minImprovement: real, degradationMargin: real, degradationPatience: nat,
    targetScore: real, targetPatience: nat, earlyStoppingPatience: nat)

  /** The ranges that run creation enforces. */
  predicate LegalPolicy(policy: Policy) {
    policy.minImprovement >= 0.0 && policy.degradationMargin > 0.0 &&
    policy.degradationPatience >= 1 && policy.targetPatience >= 1
  }

  datatype Book = Book(
    evalCount: nat, bestScore: real, bestStep: nat,
    plateau: nat, targetHits: nat, streak: nat, recent: seq<real>)

  datatype Evaluation = Evaluation(step: nat, score: real)

  /** A loop starts with clean local counters; the run's own best score survives from before. */
  predicate Opening(book: Book) {
    book.plateau == 0 && book.targetHits == 0 && book.streak == 0 && book.recent == []
  }

  predicate Improves(book: Book, policy: Policy, score: real) {
    book.evalCount == 0 || score > book.bestScore + policy.minImprovement
  }

  function Recorded(book: Book, policy: Policy, e: Evaluation): Book {
    var degraded := book.evalCount > 0 && e.score < book.bestScore - policy.degradationMargin;
    var improves := Improves(book, policy, e.score);
    Book(
      book.evalCount + 1,
      if improves then e.score else book.bestScore,
      if improves then e.step else book.bestStep,
      if improves then 0 else book.plateau + 1,
      if e.score >= policy.targetScore then book.targetHits + 1 else 0,
      if degraded then book.streak + 1 else 0,
      Tail(book.recent + [e.score], 4))
  }

  function After(book: Book, policy: Policy, history: seq<Evaluation>): Book
    decreases |history|
  {
    if history == [] then book
    else Recorded(After(book, policy, history[..|history| - 1]), policy, history[|history| - 1])
  }

  lemma AfterMore(book: Book, policy: Policy, history: seq<Evaluation>, e: Evaluation)
    ensures After(book, policy, history + [e]) == Recorded(After(book, policy, history), policy, e)
  {
    assert (history + [e])[..|history|] == history;
  }

  function Scores(history: seq<Evaluation>): (scores: seq<real>)
    ensures |scores| == |history| && forall i :: 0 <= i < |history| ==> scores[i] == history[i].score
  {
    seq(|history|, i requires 0 <= i < |history| => history[i].score)
  }

  lemma ScoresInit(history: seq<Evaluation>)
    requires history != []
    ensures Scores(history) == Scores(history[..|history| - 1]) + [history[|history| - 1].score]
    ensures Scores(history)[..|history| - 1] == Scores(history[..|history| - 1])
  {
  }

  /** The score that the windowed guard compares against: the new score on the very first evaluation. */
  function Reference(before: Book, score: real): real {
    if before.evalCount == 0 then score else before.bestScore
  }

  /** What the windowed guard counts at an evaluation. */
  function GuardCount(before: Book, policy: Policy, score: real): nat {
    TrailingBelow(before.recent + [score], Reference(before, score) - policy.degradationMargin)
  }

  lemma {:induction false} RecentIsTail(start: Book, policy: Policy, history: seq<Evaluation>)
    requires Opening(start)
    ensures After(start, policy, history).recent == Tail(Scores(history), 4)
    ensures After(start, policy, history).evalCount == start.evalCount + |history|
    decreases |history|
  {
    if history != [] {
      RecentIsTail(start, policy, history[..|history| - 1]);
      ScoresInit(history);
      var scores := Scores(history[..|history| - 1]);
      assert Tail(Tail(scores, 4) + [history[|history| - 1].score], 4) == Tail(Scores(history), 4);
    }
  }

  /** The running counter is the number of trailing scores below the CURRENT best minus the margin, even
      though the best moved while it was counting. */
  lemma {:induction false} StreakIsTrailingCount(start: Book, policy: Policy, history: seq<Evaluation>)
    requires Opening(start) && LegalPolicy(policy)
    ensures var book := After(start, policy, history);
      book.streak == TrailingBelow(Scores(history), book.bestScore - policy.degradationMargin)
    decreases |history|
  {
    if history != [] {
      var init, last := history[..|history| - 1], history[|history| - 1];
      var before, after := After(start, policy, init), After(start, policy, history);
      assert after == Recorded(before, policy, last);
      StreakIsTrailingCount(start, policy, init);
      EvalCountGrows(start, policy, init);
      ScoresInit(history);
      TrailingBelowSnoc(Scores(init), last.score, after.bestScore - policy.degradationMargin);
    }
  }

  lemma {:induction false} EvalCountGrows(start: Book, policy: Policy, history: seq<Evaluation>)
    ensures After(start, policy, history).evalCount == start.evalCount + |history|
    decreases |history|
  {
    if history != [] { EvalCountGrows(start, policy, history[..|history| - 1]); }
  }

  /** At every evaluation the windowed guard counts exactly the streak, capped at five; so its advice adds
      nothing to the streak test, and up to a patience of five the two tests are the same. */
  lemma GuardsAgree(start: Book, policy: Policy, history: seq<Evaluation>, e: Evaluation)
    requires Opening(start) && LegalPolicy(policy)
    ensures var before, after := After(start, policy, history), After(start, policy, history + [e]);
      var count := GuardCount(before, policy, e.score);
      && count == (if after.streak <= 5 then after.streak else 5)
      && (count >= policy.degradationPatience ==> after.streak >= policy.degradationPatience)
      && (policy.degradationPatience <= 5 ==>
            (count >= policy.degradationPatience <==> after.streak >= policy.degradationPatience))
  {
    hide TrailingBelow;
    var before := After(start, policy, history);
    assert (history + [e])[..|history|] == history;
    assert After(start, policy, history + [e]) == Recorded(before, policy, e);
    RecentIsTail(start, policy, history);
    StreakIsTrailingCount(start, policy, history);
    var threshold := Reference(before, e.score) - policy.degradationMargin;
    TrailingBelowSnoc(before.recent, e.score, threshold);
    TrailingOfTail(Scores(history), 4, threshold);
  }

  /** The best score never falls, and no evaluated score beats it by more than the minimum improvement. */
  lemma {:induction false} BestDominates(start: Book, policy: Policy, history: seq<Evaluation>)
    requires LegalPolicy(policy)
    ensures var book := After(start, policy, history);
      && (start.evalCount > 0 ==> start.bestScore <= book.bestScore)
      && (forall i :: 0 <= i < |history| ==> history[i].score <= book.bestScore + policy.minImprovement)
      && (forall i :: 0 <= i <= |history| && start.evalCount + i > 0 ==>
            After(start, policy, history[..i]).bestScore <= book.bestScore)
      && book.evalCount == start.evalCount + |history|
    decreases |history|
  {
    if history != [] {
      var init := history[..|history| - 1];
      BestDominates(start, policy, init);
      forall i | 0 <= i <= |history| && start.evalCount + i > 0
        ensures After(start, policy, history[..i]).bestScore <= After(start, policy, history).bestScore
      {
        if i < |history| { assert history[..i] == init[..i]; } else { assert history[..i] == history; }
      }
    } else {
      assert history[..0] == history;
    }
  }

  /** The recorded best is the score of a real evaluation: the one `plateau` evaluations ago, at the
      recorded step; or, if nothing improved in this loop, the best the run came in with. */
  lemma {:induction false} BestIsAttained(start: Book, policy: Policy, history: seq<Evaluation>)
    requires Opening(start)
    ensures var book := After(start, policy, history);
      && book.plateau <= |history|
      && (if book.plateau == |history|
          then book.bestScore == start.bestScore && book.bestStep == start.bestStep
          else history[|history| - 1 - book.plateau] == Evaluation(book.bestStep, book.bestScore))
      && (start.evalCount == 0 && history != [] ==> book.plateau < |history|)
    decreases |history|
  {
    if history != [] {
      BestIsAttained(start, policy, history[..|history| - 1]);
      RecentIsTail(start, policy, history[..|history| - 1]);
    }
  }

  /** A new best is recorded in a loop exactly when one of its scores beats the best it came in with, or
      the run had never been evaluated before. */
  lemma {:induction false} ImprovesIff(start: Book, policy: Policy, history: seq<Evaluation>)
    requires Opening(start) && LegalPolicy(policy)
    ensures After(start, policy, history).plateau < |history| <==>
      history != [] && (start.evalCount == 0 ||
        exists i :: 0 <= i < |history| && history[i].score > start.bestScore + policy.minImprovement)
    decreases |history|
  {
    if history != [] {
      var init := history[..|history| - 1];
      ImprovesIff(start, policy, init);
      EvalCountGrows(start, policy, init);
      BestDominates(start, policy, init);
      BestIsAttained(start, policy, init);
      if start.evalCount > 0 && After(start, policy, init).plateau < |init| {
        var i :| 0 <= i < |init| && init[i].score > start.bestScore + policy.minImprovement;
        assert history[i] == init[i];
      }
    }
  }

  function TrailingAtLeast(scores: seq<real>, target: real): nat {
    if scores == [] || scores[|scores| - 1] < target then 0
    else 1 + TrailingAtLeast(scores[..|scores| - 1], target)
  }

  lemma {:induction false} HitsAreTrailingCount(start: Book, policy: Policy, history: seq<Evaluation>)
    requires Opening(start)
    ensures After(start, policy, history).targetHits == TrailingAtLeast(Scores(history), policy.targetScore)
    decreases |history|
  {
    if history != [] {
      HitsAreTrailingCount(start, policy, history[..|history| - 1]);
      ScoresInit(history);
    }
  }

  /** The count is the longest uninterrupted tail at or above the target. */
  lemma {:induction false} TrailingAtLeastIsMaximal(scores: seq<real>, target: real)
    ensures var n := TrailingAtLeast(scores, target);
      && n <= |scores|
      && (forall i :: |scores| - n <= i < |scores| ==> scores[i] >= target)
      && (n < |scores| ==> scores[|scores| - 1 - n] < target)
  {
    if scores != [] { TrailingAtLeastIsMaximal(scores[..|scores| - 1], target); }
  }

  lemma TrailingAtLeastIff(scores: seq<real>, target: real, count: nat)
    ensures TrailingAtLeast(scores, target) >= count <==>
      count <= |scores| && forall i :: |scores| - count <= i < |scores| ==> scores[i] >= target
  {
    TrailingAtLeastIsMaximal(scores, target);
    var n := TrailingAtLeast(scores, target);
    if n < count && count <= |scores| { assert scores[|scores| - 1 - n] < target; }
  }

  lemma TrailingBelowIff(scores: seq<real>, threshold: real, count: nat)
    ensures TrailingBelow(scores, threshold) >= count <==>
      count <= |scores| && forall i :: |scores| - count <= i < |scores| ==> scores[i] < threshold
  {
    TrailingBelowIsMaximal(scores, threshold);
    var n := TrailingBelow(scores, threshold);
    if n < count && count <= |scores| { assert scores[|scores| - 1 - n] >= threshold; }
  }

  /** Evaluation i set a new best: the first one of the run, or better than the best before it by more than the
      minimum improvement. */
  ghost predicate ImprovedAt(start: Book, policy: Policy, history: seq<Evaluation>, i: nat)
    requires i < |history|
  {
    || (start.evalCount == 0 && i == 0)
    || history[i].score > After(start, policy, history[..i]).bestScore + policy.minImprovement
  }

  /** The plateau exceeds a patience exactly when that many evaluations and one more passed without a new best. */
  lemma {:induction false} PlateauIff(start: Book, policy: Policy, history: seq<Evaluation>, patience: nat)
    requires Opening(start)
    ensures After(start, policy, history).plateau > patience <==>
      && |history| > patience
      && forall i :: |history| - patience - 1 <= i < |history| ==> !ImprovedAt(start, policy, history, i)
    decreases |history|
  {
    if history != [] {
      var init, last := history[..|history| - 1], |history| - 1;
      EvalCountGrows(start, policy, init);
      assert history[..last] == init;
      var improved := ImprovedAt(start, policy, history, last);
      assert improved <==> Improves(After(start, policy, init), policy, history[last].score);
      if improved {
        assert After(start, policy, history).plateau == 0;
      } else if patience > 0 {
        PlateauIff(start, policy, init, patience - 1);
        forall i | 0 <= i < last
          ensures ImprovedAt(start, policy, history, i) == ImprovedAt(start, policy, init, i)
        {
          assert history[..i] == init[..i];
        }
        if patience < |history| &&
           forall i :: |history| - patience - 1 <= i < |history| ==> !ImprovedAt(start, policy, history, i) {
          forall i | |init| - patience <= i < |init|
            ensures !ImprovedAt(start, policy, init, i)
          {
            assert !ImprovedAt(start, policy, history, i);
          }
        }
      }
    }
  }

  // ---------------------------------------------------------------- the stop decision

  datatype Verdict = KeepTraining | ModelDegradation | TargetReached | EarlyStopping | MaxSteps

  /** The verdict in terms of the scores alone. */
  function VerdictFor(book: Book, policy: Policy, scores: seq<real>, step: nat, maxSteps: nat): Verdict {
    if TrailingBelow(scores, book.bestScore - policy.degradationMargin) >= policy.degradationPatience
    then ModelDegradation
    else if TrailingAtLeast(scores, policy.targetScore) >= policy.targetPatience then TargetReached
    else if book.plateau > policy.earlyStoppingPatience then EarlyStopping
    else if step >= maxSteps then MaxSteps
    else KeepTraining
  }
}
