/** The life of a run: the sessions of its worker loop, one after the other, and the best score it is left
with. Only the evaluation counter and the best survive a session; the loop's own counters start clean. */
module RunLife {
  import opened Options
  import opened EvaluationBook
  import opened ModelGuard
  import opened WorkerRun

  /** What the stored record keeps of the bookkeeping. */
  datatype Stored = Stored(evalCount: nat, bestScore: real, bestStep: nat)

  /** A record that was never trained. */
  const FRESH := Stored(0, 0.0, 0)

  /** The evaluations that a session recorded, and whether an evaluation that raised ended it after the
      counter was raised. */
  datatype Session = Session(evals: seq<Evaluation>, counted: bool)

  function Reopened(stored: Stored): Book {
    Book(stored.evalCount, stored.bestScore, stored.bestStep, 0, 0, 0, [])
  }

  function AfterSession(policy: Policy, stored: Stored, session: Session): Stored {
    var book := After(Reopened(stored), policy, session.evals);
    Stored(book.evalCount + if session.counted then 1 else 0, book.bestScore, book.bestStep)
  }

  function AfterLife(policy: Policy, stored: Stored, life: seq<Session>): Stored {
    if life == [] then stored
    else AfterSession(policy, AfterLife(policy, stored, life[..|life| - 1]), life[|life| - 1])
  }

  /** Every evaluation ever recorded. */
  function AllEvals(life: seq<Session>): seq<Evaluation> {
    if life == [] then [] else AllEvals(life[..|life| - 1]) + life[|life| - 1].evals
  }

  /** The first evaluation of the whole life raised after it was counted. */
  ghost predicate FirstRaised(life: seq<Session>) {
    exists i :: 0 <= i < |life| && life[i] == Session([], true) &&
      forall j :: 0 <= j < i ==> life[j] == Session([], false)
  }

  /** Some score beats the best that a record is created with. */
  ghost predicate BeatsTheInitialBest(policy: Policy, evals: seq<Evaluation>) {
    exists e :: e in evals && e.score > FRESH.bestScore + policy.minImprovement
  }

  predicate BestIn(stored: Stored, evals: seq<Evaluation>) {
    Evaluation(stored.bestStep, stored.bestScore) in evals
  }

  // ---------------------------------------------------------------- one session

  /** A session either records a new best from its own evaluations, or leaves the best alone. */
  lemma SessionBest(policy: Policy, stored: Stored, session: Session)
    requires LegalPolicy(policy)
    ensures var stored' := AfterSession(policy, stored, session);
      && stored'.evalCount == stored.evalCount + |session.evals| + (if session.counted then 1 else 0)
      && (if session.evals != [] && (stored.evalCount == 0
               || exists e :: e in session.evals && e.score > stored.bestScore + policy.minImprovement)
          then BestIn(stored', session.evals)
          else stored'.bestScore == stored.bestScore && stored'.bestStep == stored.bestStep)
  {
    hide After, LegalPolicy;
    var start, evals := Reopened(stored), session.evals;
    EvalCountGrows(start, policy, evals);
    BestIsAttained(start, policy, evals);
    ImprovesIff(start, policy, evals);
    if exists e :: e in evals && e.score > stored.bestScore + policy.minImprovement {
      var e :| e in evals && e.score > stored.bestScore + policy.minImprovement;
      var i :| 0 <= i < |evals| && evals[i] == e;
      assert evals[i].score > start.bestScore + policy.minImprovement;
    }
  }

  // ---------------------------------------------------------------- which lives keep a real best

  lemma FirstRaisedStep(life: seq<Session>)
    requires life != []
    ensures var init, last := life[..|life| - 1], life[|life| - 1];
      FirstRaised(life) <==>
        FirstRaised(init) ||
        (last == Session([], true) && forall j :: 0 <= j < |init| ==> init[j] == Session([], false))
  {
    var n := |life| - 1;
    var init := life[..n];
    if FirstRaised(life) {
      var i :| 0 <= i < |life| && life[i] == Session([], true) &&
        forall j :: 0 <= j < i ==> life[j] == Session([], false);
      if i < n { assert init[i] == Session([], true); }
    }
    if FirstRaised(init) {
      var i :| 0 <= i < |init| && init[i] == Session([], true) &&
        forall j :: 0 <= j < i ==> init[j] == Session([], false);
      assert life[i] == Session([], true);
    }
    if life[n] == Session([], true) && forall j :: 0 <= j < n ==> init[j] == Session([], false) {
      assert forall j :: 0 <= j < n ==> life[j] == init[j];
    }
  }

  /** A life with no evaluation and no raise has done nothing. */
  lemma {:induction false} Untouched(life: seq<Session>)
    requires AllEvals(life) == [] && !FirstRaised(life)
    ensures forall j :: 0 <= j < |life| ==> life[j] == Session([], false)
    decreases |life|
  {
    if life != [] {
      var init, last := life[..|life| - 1], life[|life| - 1];
      FirstRaisedStep(life);
      Untouched(init);
      forall j | 0 <= j < |life| ensures life[j] == Session([], false) {
        assert j < |init| ==> init[j] == life[j];
      }
    }
  }

  lemma {:induction false} BestOfLife(policy: Policy, life: seq<Session>)
    requires LegalPolicy(policy)
    ensures var stored, all := AfterLife(policy, FRESH, life), AllEvals(life);
      if FirstRaised(life) then
        && stored.evalCount > 0
        && (if BeatsTheInitialBest(policy, all) then BestIn(stored, all)
            else stored.bestScore == FRESH.bestScore && stored.bestStep == FRESH.bestStep)
      else if all == [] then stored == FRESH
      else stored.evalCount > 0 && BestIn(stored, all)
    decreases |life|
  {
    hide LegalPolicy, FirstRaised, AfterSession;
    if life == [] {
      NoLife();
    } else {
      var init, last := life[..|life| - 1], life[|life| - 1];
      BestOfLife(policy, init);
      FirstRaisedStep(life);
      SessionBest(policy, AfterLife(policy, FRESH, init), last);
      BeatsEither(policy, AllEvals(init), last.evals);
      if !FirstRaised(init) && AllEvals(init) == [] {
        Untouched(init);
        assert last.evals == [] ==> AllEvals(life) == [];
      } else if !FirstRaised(init) {
        assert AllEvals(init)[0] in AllEvals(init);
        NotUntouched(init);
      }
    }
  }

  lemma NoLife()
    ensures !FirstRaised([]) && AllEvals([]) == []
  {
  }

  /** A life with an evaluation is not one of empty sessions. */
  lemma {:induction false} NotUntouched(life: seq<Session>)
    requires AllEvals(life) != []
    ensures exists j :: 0 <= j < |life| && life[j] != Session([], false)
    decreases |life|
  {
    var init, last := life[..|life| - 1], life[|life| - 1];
    if last.evals == [] {
      assert AllEvals(life) == AllEvals(init);
      NotUntouched(init);
      var j :| 0 <= j < |init| && init[j] != Session([], false);
      assert life[j] != Session([], false);
    } else {
      assert life[|life| - 1] != Session([], false);
    }
  }

  lemma BeatsEither(policy: Policy, a: seq<Evaluation>, b: seq<Evaluation>)
    ensures BeatsTheInitialBest(policy, a + b) <==> BeatsTheInitialBest(policy, a) || BeatsTheInitialBest(policy, b)
  {
    forall e | e in a || e in b ensures e in a + b {}
  }

  /** The stored best of a run that was evaluated is one of its evaluations exactly when its very first
      evaluation did not raise, or some score beat the initial best by more than the minimum improvement.
      Evaluations happen after at least one step. */
  lemma StoredBestIsRealIff(policy: Policy, life: seq<Session>)
    requires LegalPolicy(policy) && AllEvals(life) != []
    requires forall e :: e in AllEvals(life) ==> e.step >= 1
    ensures BestIn(AfterLife(policy, FRESH, life), AllEvals(life)) <==>
      !FirstRaised(life) || BeatsTheInitialBest(policy, AllEvals(life))
  {
    hide LegalPolicy, FirstRaised, BeatsTheInitialBest, AfterLife, AllEvals;
    BestOfLife(policy, life);
  }

  // ---------------------------------------------------------------- what the phantom costs

  /** While the initial best stands, a session is ended as degraded exactly when its last scores, as many as
      the patience, all lie below minus the margin, whatever they did before. */
  lemma DegradedAgainstPhantomIff(policy: Policy, life: seq<Session>, evals: seq<Evaluation>, maxSteps: nat)
    requires LegalPolicy(policy) && FirstRaised(life) && evals != []
    requires !BeatsTheInitialBest(policy, AllEvals(life)) && !BeatsTheInitialBest(policy, evals)
    ensures VerdictAt(Reopened(AfterLife(policy, FRESH, life)), policy, evals, |evals|, maxSteps)
              == ModelDegradation <==>
      && policy.degradationPatience <= |evals|
      && forall i :: |evals| - policy.degradationPatience <= i < |evals| ==> evals[i].score < -policy.degradationMargin
  {
    hide AfterLife, AllEvals, FirstRaised, After;
    BestOfLife(policy, life);
    var stored := AfterLife(policy, FRESH, life);
    var start := Reopened(stored);
    BestIsAttained(start, policy, evals);
    ImprovesIff(start, policy, evals);
    forall i | 0 <= i < |evals| ensures evals[i].score <= start.bestScore + policy.minImprovement {
      assert evals[i] in evals;
    }
    assert evals[..|evals|] == evals;
    TrailingBelowIff(Scores(evals), -policy.degradationMargin, policy.degradationPatience);
  }

  /** So a run whose first evaluation raised is ended as degraded by scores that never fall at all, whenever
      they are low enough; the same scores never end a run that had no such accident. */
  lemma PhantomBest(policy: Policy, evals: seq<Evaluation>, score: real, maxSteps: nat)
    requires LegalPolicy(policy) && evals != [] && score <= policy.minImprovement
    requires forall i :: 0 <= i < |evals| ==> evals[i].score == score
    ensures VerdictAt(Reopened(AfterLife(policy, FRESH, [Session([], true)])), policy, evals, |evals|, maxSteps)
              == ModelDegradation
            <==> score < -policy.degradationMargin && |evals| >= policy.degradationPatience
    ensures VerdictAt(Reopened(FRESH), policy, evals, |evals|, maxSteps) != ModelDegradation
  {
    hide After, AfterLife;
    var life := [Session([], true)];
    assert life[0] == Session([], true);
    assert life[..0] == [] && AllEvals([]) == [] && AllEvals(life) == [];
    DegradedAgainstPhantomIff(policy, life, evals, maxSteps);
    BestIsAttained(Reopened(FRESH), policy, evals);
    assert evals[..|evals|] == evals;
    TrailingBelowIsMaximal(Scores(evals), score - policy.degradationMargin);
  }

  /** A backend that trains and reports nothing but non-finite metrics. */
  const NEVER_FINITE: nat -> Reaction := _ => Reaction(false, false, Trained(0.0), NonFinite, WroteNothing)

  lemma {:induction false} RaisesEventually(c: Config, start: Book, s0: LoopState, finish: FinishReply, restores: bool,
                                            k: nat, s: LoopState) returns (turns: nat, ending: Ending)
    requires c.interval >= 1 && Reached(c, start, s0, NEVER_FINITE, k) == Some(s)
    ensures Ran(c, start, s0, NEVER_FINITE, finish, restores, turns, ending)
    ensures ending.end == CrashedEnd && ending.counted && ending.s.evals == s.evals
    decreases if s.step < c.maxSteps then c.maxSteps - s.step else 0
  {
    hide Executed;
    var s1 := Stepped(c, s, 0.0);
    if Due(c, s1.step) {
      turns, ending := k, Ending(CrashedEnd, s1, true);
    } else {
      assert Reached(c, start, s0, NEVER_FINITE, k + 1) == Some(s1);
      turns, ending := RaisesEventually(c, start, s0, finish, restores, k + 1, s1);
    }
  }

  /** Every fresh run can get the phantom best: with such a backend its first session crashes and leaves one
      counted evaluation with the initial best. */
  lemma PhantomIsReachable(c: Config, s0: LoopState, finish: FinishReply, restores: bool)
    requires c.interval >= 1 && Opened(s0)
    ensures exists turns, ending ::
      && Ran(c, Reopened(FRESH), s0, NEVER_FINITE, finish, restores, turns, ending)
      && ending.end == CrashedEnd
      && AfterSession(c.policy, FRESH, Session(ending.s.evals, ending.counted)) == Stored(1, 0.0, 0)
  {
    hide Ran;
    assert Reached(c, Reopened(FRESH), s0, NEVER_FINITE, 0) == Some(s0);
    var turns, ending := RaisesEventually(c, Reopened(FRESH), s0, finish, restores, 0, s0);
    assert After(Reopened(FRESH), c.policy, []) == Reopened(FRESH);
  }

  /** One such run: counted once without a score, then evaluated at -1 at step 20. Its best is 0 at step 0. */
  lemma PhantomExample(policy: Policy)
    requires LegalPolicy(policy)
    ensures var life := [Session([], true), Session([Evaluation(20, -1.0)], false)];
      && AfterLife(policy, FRESH, life) == Stored(2, 0.0, 0)
      && !BestIn(AfterLife(policy, FRESH, life), AllEvals(life))
  {
    var first, life := [Session([], true)], [Session([], true), Session([Evaluation(20, -1.0)], false)];
    assert life[..1] == first && first[..0] == [];
    assert AllEvals([]) == [] && AllEvals(first) == [] && AllEvals(life) == [Evaluation(20, -1.0)];
    var evals := [Evaluation(20, -1.0)];
    assert evals[..0] == [];
    assert AfterLife(policy, FRESH, first) == Stored(1, 0.0, 0);
  }
}
