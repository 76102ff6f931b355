/** The training loop of one worker as a function of its environment: what one turn does, where the loop
stands after any number of turns, and how it ends. */
module WorkerRun {
  import opened Options
  import opened Modular
  import opened EvaluationBook
  import ModelGuard
  import opened Checkpoints
  import Batch

  // ---------------------------------------------------------------- the environment

  datatype TrainReply = Trained(loss: real) | OutOfMemory | TrainFailed

  datatype EvalReply = Scored(score: real) | NonFinite | EvalFailed

  /** What becomes of the checkpoint of an evaluation: the worker writes a file or none; or writing or recording
      it raises, perhaps with the file already there; or the file is recorded but its promotion, if the score
      calls for one, raises, before or after the best file was replaced. */
  datatype SaveReply =
    | Wrote(bytes: Bytes) | WroteNothing
    | SaveFailed(left: Option<Bytes>) | PromoteFailed(bytes: Bytes, replaced: bool)

  /** What restoring and testing the best model do at a completion. */
  datatype FinishReply = FinishOk(testScore: real) | RestoreFailed | TestFailed

  /** What the rest of the world does during one turn of the loop. */
  datatype Reaction = Reaction(stop: bool, pause: bool, train: TrainReply, eval: EvalReply, save: SaveReply)

  datatype LoopEnd = StoppedEnd | PausedEnd | CompletedEnd(verdict: Verdict) | CrashedEnd

  datatype Config = Config(
    maxSteps: nat, interval: nat, policy: Policy,
    auto: bool, batchMin: nat, batchMax: nat, trainRecords: nat,
    bulkSteps: bool,      // the backend offers train_steps
    fastBackend: bool,    // native or numpy
    tunedCap: int, canRestore: bool, canTest: bool)

  predicate LegalConfig(c: Config) {
    c.interval >= 1 && LegalPolicy(c.policy)
  }

  function EvaluationInterval(requested: Option<nat>, maxSteps: nat): (interval: nat)
    ensures interval >= 1
    ensures requested.Some? && requested.value != 0 ==> interval == requested.value
    ensures requested in {None, Some(0)} ==>
      && 20 <= interval <= 500
      && (20 * 20 <= maxSteps <= 500 * 20 ==> 20 * interval <= maxSteps < 20 * interval + 20)
      && (maxSteps < 20 * 20 ==> interval == 20) && (maxSteps > 500 * 20 ==> interval == 500)
  {
    if requested.Some? && requested.value != 0 then requested.value
    else Max(20, Min(500, Max(1, maxSteps / 20)))
  }

  // ---------------------------------------------------------------- step and batch sizes

  /** How many optimiser steps the next request asks for. */
  function ChunkSteps(c: Config, step: nat, batch: nat): (chunk: nat)
    requires c.interval >= 1
    ensures 1 <= chunk <= 100
    ensures step + chunk <= step + c.interval - step % c.interval
    ensures step < c.maxSteps ==> step + chunk <= c.maxSteps
    ensures !c.fastBackend ==> chunk == 1
  {
    var toEvaluation := c.interval - step % c.interval;
    var toFinish := Max(1, c.maxSteps - step);
    var maximumChunk := if c.fastBackend then Min(100, Max(1, c.tunedCap)) else 1;
    var responsiveness := Max(1, Min(maximumChunk, 65536 / Max(1, batch)));
    Min(Min(toEvaluation, toFinish), responsiveness)
  }

  /** How many a backend executes: all of them in bulk, or one. */
  function Executed(c: Config, step: nat, batch: nat): (count: nat)
    requires c.interval >= 1
    ensures 1 <= count <= ChunkSteps(c, step, batch)
    ensures c.bulkSteps ==> count == ChunkSteps(c, step, batch)
    ensures !c.bulkSteps ==> count == 1
  {
    if c.bulkSteps then ChunkSteps(c, step, batch) else 1
  }

  /** The request is the largest that a responsive loop may make: a single step, or on a fast backend as many as
      the tuned cap and a hundred allow, of no more than 65536 samples together, not beyond the limit, and with
      no evaluation point strictly inside. */
  lemma ChunkIsLargest(c: Config, step: nat, batch: nat, count: nat)
    requires c.interval >= 1 && count >= 1
    ensures count <= ChunkSteps(c, step, batch) <==>
      || count == 1
      || (&& c.fastBackend && count <= 100 && count <= c.tunedCap
          && count * Max(1, batch) <= 65536 && step + count <= c.maxSteps
          && count <= c.interval - step % c.interval)
  {
    var each := Max(1, batch);
    QuotientAtLeast(65536, each, count);
  }

  lemma QuotientAtLeast(total: nat, each: nat, count: nat)
    requires each >= 1
    ensures count <= total / each <==> count * each <= total
  {
    var q := total / each;
    assert total == q * each + total % each;
    if count <= q { MulMonotone(each, count, q); } else { MulMonotone(each, q + 1, count); }
  }

  predicate CanShrink(c: Config, batch: nat) {
    c.auto && batch > c.batchMin
  }

  function Halved(c: Config, batch: nat): nat {
    Max(c.batchMin, batch / 2)
  }

  /** The last score fell clearly below the better of the two before it. */
  predicate Unstable(recent: seq<real>) {
    var n := |recent|;
    n >= 3 && (recent[n - 1] < recent[n - 2] - 0.04 || recent[n - 1] < recent[n - 3] - 0.04)
  }

  predicate Steady(recent: seq<real>) {
    var n := |recent|;
    n >= 2 && -0.02 <= recent[n - 1] - recent[n - 2] <= 0.02
  }

  predicate Shrinks(c: Config, batch: nat, book: Book) {
    CanShrink(c, batch) && Unstable(book.recent)
  }

  predicate Grows(c: Config, batch: nat, book: Book) {
    && c.auto && book.evalCount in {2, 4} && Steady(book.recent)
    && batch < c.batchMax && c.trainRecords >= batch * 8
  }

  /** The batch size after an evaluation. */
  function Adapted(c: Config, batch: nat, book: Book): nat {
    if Shrinks(c, batch, book) then Halved(c, batch)
    else if Grows(c, batch, book) then Min(c.batchMax, batch * 2)
    else batch
  }

  // ---------------------------------------------------------------- one turn

  /** The verdict after the first k evaluations of a loop that opened with `start`. */
  function VerdictAt(start: Book, policy: Policy, evals: seq<Evaluation>, k: nat, maxSteps: nat): Verdict
    requires 0 < k <= |evals|
  {
    VerdictFor(After(start, policy, evals[..k]), policy, Scores(evals[..k]), evals[k - 1].step, maxSteps)
  }

  /** The last `count` scores of a log are all below (or all at least) a bound. */
  ghost predicate LastBelow(evals: seq<Evaluation>, count: nat, bound: real) {
    count <= |evals| && forall i :: |evals| - count <= i < |evals| ==> evals[i].score < bound
  }

  ghost predicate LastAtLeast(evals: seq<Evaluation>, count: nat, bound: real) {
    count <= |evals| && forall i :: |evals| - count <= i < |evals| ==> evals[i].score >= bound
  }

  /** None of the last `count` evaluations set a new best. */
  ghost predicate NoneImproved(start: Book, policy: Policy, evals: seq<Evaluation>, count: nat) {
    count <= |evals| && forall i :: |evals| - count <= i < |evals| ==> !ImprovedAt(start, policy, evals, i)
  }

  lemma LastBelowIff(evals: seq<Evaluation>, count: nat, bound: real)
    ensures LastBelow(evals, count, bound) <==> ModelGuard.TrailingBelow(Scores(evals), bound) >= count
  {
    hide ModelGuard.TrailingBelow;
    TrailingBelowIff(Scores(evals), bound, count);
    if LastBelow(evals, count, bound) {
      forall i | |evals| - count <= i < |evals| ensures Scores(evals)[i] < bound { assert evals[i].score < bound; }
    }
  }

  lemma LastAtLeastIff(evals: seq<Evaluation>, count: nat, bound: real)
    ensures LastAtLeast(evals, count, bound) <==> TrailingAtLeast(Scores(evals), bound) >= count
  {
    hide TrailingAtLeast;
    TrailingAtLeastIff(Scores(evals), bound, count);
    if LastAtLeast(evals, count, bound) {
      forall i | |evals| - count <= i < |evals| ensures Scores(evals)[i] >= bound { assert evals[i].score >= bound; }
    }
  }

  lemma NoneImprovedIff(start: Book, policy: Policy, evals: seq<Evaluation>, patience: nat)
    requires Opening(start)
    ensures NoneImproved(start, policy, evals, patience + 1) <==> After(start, policy, evals).plateau > patience
  {
    hide After, ImprovedAt;
    PlateauIff(start, policy, evals, patience);
  }

  /** The verdict in terms of the scores: degraded when the last scores lie below the best less the margin, else
      on target when the last ones reach it, else out of patience when too many evaluations passed since the
      best one (or since the loop opened), else at the limit. */
  lemma VerdictMeans(start: Book, policy: Policy, evals: seq<Evaluation>, maxSteps: nat)
    requires Opening(start) && evals != []
    ensures var book := After(start, policy, evals);
      var degraded := LastBelow(evals, policy.degradationPatience, book.bestScore - policy.degradationMargin);
      var onTarget := LastAtLeast(evals, policy.targetPatience, policy.targetScore);
      var stale := NoneImproved(start, policy, evals, policy.earlyStoppingPatience + 1);
      VerdictAt(start, policy, evals, |evals|, maxSteps) ==
        if degraded then ModelDegradation
        else if onTarget then TargetReached
        else if stale then EarlyStopping
        else if evals[|evals| - 1].step >= maxSteps then MaxSteps
        else KeepTraining
  {
    hide After, ImprovedAt, ModelGuard.TrailingBelow, TrailingAtLeast, LastBelow, LastAtLeast, NoneImproved;
    assert evals[..|evals|] == evals;
    var book := After(start, policy, evals);
    LastBelowIff(evals, policy.degradationPatience, book.bestScore - policy.degradationMargin);
    LastAtLeastIff(evals, policy.targetPatience, policy.targetScore);
    NoneImprovedIff(start, policy, evals, policy.earlyStoppingPatience);
  }

  /** Where the loop stands: its evaluations since it opened, each with the save that went with it. */
  datatype LoopState = LoopState(
    step: nat, loss: real, batch: nat, adjustments: nat, evals: seq<Evaluation>, saves: seq<SaveReply>)

  /** A turn goes on, reaches a stopping verdict, or raises; `counted` says that the evaluation counter had
      already been raised. */
  datatype Turn = Onward(s: LoopState) | Final(s: LoopState, verdict: Verdict) | Raises(s: LoopState, counted: bool)

  function Resized(s: LoopState, batch: nat): LoopState {
    s.(batch := batch, adjustments := s.adjustments + 1)
  }

  function Stepped(c: Config, s: LoopState, loss: real): LoopState
    requires c.interval >= 1
  {
    s.(step := s.step + Executed(c, s.step, s.batch), loss := loss)
  }

  predicate Due(c: Config, step: nat)
    requires c.interval >= 1
  {
    step % c.interval == 0 || step >= c.maxSteps
  }

  function Logged(s: LoopState, score: real, save: SaveReply): LoopState {
    s.(evals := s.evals + [Evaluation(s.step, score)], saves := s.saves + [save])
  }

  /** The promotion of this evaluation is called for and raises. */
  predicate PromotionRaises(c: Config, start: Book, s: LoopState, score: real, save: SaveReply) {
    save.PromoteFailed? && Improves(After(start, c.policy, s.evals), c.policy, score)
  }

  /** The batch adapted to the last evaluation. */
  function Adjusted(c: Config, start: Book, s: LoopState): LoopState {
    var book := After(start, c.policy, s.evals);
    if Shrinks(c, s.batch, book) || Grows(c, s.batch, book) then Resized(s, Adapted(c, s.batch, book)) else s
  }

  function Evaluated(c: Config, start: Book, s: LoopState, score: real, save: SaveReply): LoopState {
    Adjusted(c, start, Logged(s, score, save))
  }

  /** The evaluation half of a turn. */
  function Judged(c: Config, start: Book, s: LoopState, now: Reaction): Turn {
    match now.eval
    case EvalFailed => Raises(s, false)
    case NonFinite => Raises(s, true)
    case Scored(score) =>
      if now.save.SaveFailed? then Raises(s, true)
      // the best score is assigned before its checkpoint is promoted
      else if PromotionRaises(c, start, s, score, now.save) then Raises(Logged(s, score, now.save), false)
      else
      var s1 := Evaluated(c, start, s, score, now.save);
      var verdict := VerdictAt(start, c.policy, s1.evals, |s1.evals|, c.maxSteps);
      if verdict == KeepTraining then Onward(s1)
      else Final(if verdict == MaxSteps then s1.(step := c.maxSteps) else s1, verdict)
  }

  function Turned(c: Config, start: Book, s: LoopState, now: Reaction): Turn
    requires c.interval >= 1
  {
    match now.train
    case TrainFailed => Raises(s, false)
    case OutOfMemory => if CanShrink(c, s.batch) then Onward(Resized(s, Halved(c, s.batch))) else Raises(s, false)
    case Trained(loss) =>
      var s1 := Stepped(c, s, loss);
      if Due(c, s1.step) then Judged(c, start, s1, now) else Onward(s1)
  }

  /** A turn by the backend's replies. */
  lemma TurnByReply(c: Config, start: Book, s: LoopState, now: Reaction)
    requires c.interval >= 1
    ensures now.train.TrainFailed? || (now.train.OutOfMemory? && !CanShrink(c, s.batch)) ==>
      Turned(c, start, s, now) == Raises(s, false)
    ensures now.train.OutOfMemory? && CanShrink(c, s.batch) ==>
      Turned(c, start, s, now) == Onward(Resized(s, Halved(c, s.batch)))
    ensures now.train.Trained? ==>
      var s1 := Stepped(c, s, now.train.loss);
      Turned(c, start, s, now) == if Due(c, s1.step) then Judged(c, start, s1, now) else Onward(s1)
  {
    hide Judged;
  }

  lemma JudgedByReply(c: Config, start: Book, s: LoopState, now: Reaction)
    ensures !now.eval.Scored? || now.save.SaveFailed? ==>
      Judged(c, start, s, now) == Raises(s, !now.eval.EvalFailed?)
    ensures now.eval.Scored? && PromotionRaises(c, start, s, now.eval.score, now.save) ==>
      Judged(c, start, s, now) == Raises(Logged(s, now.eval.score, now.save), false)
    ensures now.eval.Scored? && !now.save.SaveFailed? && !PromotionRaises(c, start, s, now.eval.score, now.save) ==>
      var s1 := Evaluated(c, start, s, now.eval.score, now.save);
      var verdict := VerdictAt(start, c.policy, s1.evals, |s1.evals|, c.maxSteps);
      Judged(c, start, s, now) ==
        if verdict == KeepTraining then Onward(s1)
        else Final(if verdict == MaxSteps then s1.(step := c.maxSteps) else s1, verdict)
  {
    hide Evaluated, VerdictAt, After;
  }

  // ---------------------------------------------------------------- whole loops

  /** Where the loop stands at the head of turn n; none if it ended before. */
  function Reached(c: Config, start: Book, s0: LoopState, env: nat -> Reaction, n: nat): Option<LoopState>
    requires c.interval >= 1
  {
    if n == 0 then Some(s0)
    else
      var head, now := Reached(c, start, s0, env, n - 1), env(n - 1);
      if head.None? || now.stop || now.pause then None
      else
        var turn := Turned(c, start, head.value, now);
        if turn.Onward? then Some(turn.s) else None
  }

  datatype Ending = Ending(end: LoopEnd, s: LoopState, counted: bool)

  /** How the loop ends in a turn, if it does. `restores` says that there is a best checkpoint to restore. */
  function EndsIn(c: Config, start: Book, s: LoopState, now: Reaction, finish: FinishReply, restores: bool)
    : Option<Ending>
    requires c.interval >= 1
  {
    if now.stop then Some(Ending(StoppedEnd, s, false))
    else if now.pause then Some(Ending(PausedEnd, s, false))
    else
      match Turned(c, start, s, now)
      case Onward(_) => None
      case Raises(s', counted) => Some(Ending(CrashedEnd, s', counted))
      case Final(s', verdict) =>
        Some(Ending(if FinishRaises(c, finish, restores) then CrashedEnd else CompletedEnd(verdict), s', false))
  }

  predicate FinishRaises(c: Config, finish: FinishReply, restores: bool) {
    (restores && finish.RestoreFailed?) || (c.canTest && finish.TestFailed?)
  }

  /** The loop opened in s0 runs `turns` whole turns and ends in the next one. */
  ghost predicate Ran(c: Config, start: Book, s0: LoopState, env: nat -> Reaction, finish: FinishReply, restores: bool,
                      turns: nat, ending: Ending)
    requires c.interval >= 1
  {
    var head := Reached(c, start, s0, env, turns);
    head.Some? && EndsIn(c, start, head.value, env(turns), finish, restores) == Some(ending)
  }

  // ---------------------------------------------------------------- the environment decides the run

  lemma {:induction false} ReachedBefore(c: Config, start: Book, s0: LoopState, env: nat -> Reaction, m: nat, n: nat)
    requires c.interval >= 1 && m <= n && Reached(c, start, s0, env, n).Some?
    ensures Reached(c, start, s0, env, m).Some?
    decreases n
  {
    if m < n { ReachedBefore(c, start, s0, env, m, n - 1); }
  }

  /** Two runs in the same environment are the same run. */
  lemma RunIsDetermined(c: Config, start: Book, s0: LoopState, env: nat -> Reaction, finish: FinishReply,
                        restores: bool, m: nat, a: Ending, n: nat, b: Ending)
    requires c.interval >= 1
    requires Ran(c, start, s0, env, finish, restores, m, a) && Ran(c, start, s0, env, finish, restores, n, b)
    ensures m == n && a == b
  {
    hide Turned;
    if m < n { ReachedBefore(c, start, s0, env, m + 1, n); }
    if n < m { ReachedBefore(c, start, s0, env, n + 1, m); }
  }

  /** Exactly when and why a loop crashes in a turn that no flag has ended. */
  lemma CrashIff(c: Config, start: Book, s: LoopState, now: Reaction, finish: FinishReply, restores: bool)
    requires c.interval >= 1 && !now.stop && !now.pause
    ensures var ending := EndsIn(c, start, s, now, finish, restores);
      var due := now.train.Trained? && Due(c, s.step + Executed(c, s.step, s.batch));
      var at := s.step + Executed(c, s.step, s.batch);
      var raised := due && (!now.eval.Scored? || now.save.SaveFailed?
                            || PromotionRaises(c, start, s, now.eval.score, now.save));
      (ending.Some? && ending.value.end == CrashedEnd) <==>
        || now.train.TrainFailed?
        || (now.train.OutOfMemory? && !(c.auto && s.batch > c.batchMin))
        || raised
        || (due && !raised && ((restores && finish.RestoreFailed?) || (c.canTest && finish.TestFailed?))
            && var evals := s.evals + [Evaluation(at, now.eval.score)];
               VerdictAt(start, c.policy, evals, |evals|, c.maxSteps) != KeepTraining)
  {
    hide After, VerdictFor;
  }

  /** A crash leaves the evaluation counter one ahead exactly when it met a non-finite evaluation that was due,
      or could not save or record a finite one. */
  lemma CountedIff(c: Config, start: Book, s: LoopState, now: Reaction, finish: FinishReply, restores: bool)
    requires c.interval >= 1 && EndsIn(c, start, s, now, finish, restores).Some?
    ensures EndsIn(c, start, s, now, finish, restores).value.counted <==>
      && !now.stop && !now.pause && now.train.Trained?
      && (var to := s.step + Executed(c, s.step, s.batch); to % c.interval == 0 || to >= c.maxSteps)
      && (now.eval.NonFinite? || (now.eval.Scored? && now.save.SaveFailed?))
  {
    hide After, VerdictAt, Executed, Shrinks, Grows, Improves;
  }

  /** The control flags decide: a stop ends the loop stopped, a pause without a stop ends it paused, nothing else
      does; a flag ends the loop at the very head where it is first seen, with the state of that head. */
  lemma FlagsDecide(c: Config, start: Book, s0: LoopState, env: nat -> Reaction, finish: FinishReply, restores: bool,
                    turns: nat, ending: Ending)
    requires c.interval >= 1 && Ran(c, start, s0, env, finish, restores, turns, ending)
    ensures ending.end == StoppedEnd <==> env(turns).stop
    ensures ending.end == PausedEnd <==> !env(turns).stop && env(turns).pause
    ensures env(turns).stop || env(turns).pause ==>
      Reached(c, start, s0, env, turns) == Some(ending.s) && !ending.counted
    ensures forall i :: 0 <= i < turns ==> !env(i).stop && !env(i).pause
  {
    hide Turned, Reached;
    forall i | 0 <= i < turns ensures !env(i).stop && !env(i).pause {
      ReachedBefore(c, start, s0, env, i + 1, turns);
      ReachedUnflagged(c, start, s0, env, i);
    }
  }

  lemma ReachedUnflagged(c: Config, start: Book, s0: LoopState, env: nat -> Reaction, i: nat)
    requires c.interval >= 1 && Reached(c, start, s0, env, i + 1).Some?
    ensures !env(i).stop && !env(i).pause
  {
  }

  /** So a loop that reaches a head with a flag up ends there. */
  lemma FlagEndsTheLoop(c: Config, start: Book, s0: LoopState, env: nat -> Reaction, finish: FinishReply,
                        restores: bool, turns: nat, ending: Ending, n: nat)
    requires c.interval >= 1 && Ran(c, start, s0, env, finish, restores, turns, ending)
    requires Reached(c, start, s0, env, n).Some? && (env(n).stop || env(n).pause)
    ensures turns == n && Some(ending.s) == Reached(c, start, s0, env, n)
    ensures ending.end == if env(n).stop then StoppedEnd else PausedEnd
  {
    hide Turned, Reached;
    FlagsDecide(c, start, s0, env, finish, restores, turns, ending);
    if turns < n {
      ReachedBefore(c, start, s0, env, turns + 1, n);
      StillRunning(c, start, s0, env, finish, restores, turns);
    }
  }

  /** A head that another one follows is not where the loop ends. */
  lemma StillRunning(c: Config, start: Book, s0: LoopState, env: nat -> Reaction, finish: FinishReply, restores: bool,
                     turns: nat)
    requires c.interval >= 1 && Reached(c, start, s0, env, turns + 1).Some?
    ensures Reached(c, start, s0, env, turns).Some?
    ensures EndsIn(c, start, Reached(c, start, s0, env, turns).value, env(turns), finish, restores).None?
  {
    hide Turned;
  }

  /** Every turn that goes on gets closer to the limit, or shrinks the batch at the same step. */
  lemma TurnProgress(c: Config, start: Book, s: LoopState, now: Reaction)
    requires c.interval >= 1 && Turned(c, start, s, now).Onward?
    ensures var s' := Turned(c, start, s, now).s;
      || s.step < s'.step < c.maxSteps
      || (s'.step == s.step && c.batchMin <= s'.batch < s.batch && s'.evals == s.evals && s'.saves == s.saves)
  {
    hide After;
  }

  /** So the loop ends in every environment. */
  lemma {:induction false} EndsAfter(c: Config, start: Book, s0: LoopState, env: nat -> Reaction, k: nat, s: LoopState)
    returns (n: nat)
    requires c.interval >= 1 && Reached(c, start, s0, env, k) == Some(s)
    ensures n > k && Reached(c, start, s0, env, n).None?
    decreases if s.step < c.maxSteps then c.maxSteps - s.step else 0, s.batch
  {
    n := k + 1;
    var next := Reached(c, start, s0, env, k + 1);
    if next.Some? {
      TurnProgress(c, start, s, env(k));
      n := EndsAfter(c, start, s0, env, k + 1, next.value);
    }
  }

  lemma LoopTerminates(c: Config, start: Book, s0: LoopState, env: nat -> Reaction)
    requires c.interval >= 1
    ensures exists n :: Reached(c, start, s0, env, n).None?
  {
    var n := EndsAfter(c, start, s0, env, 0, s0);
  }

  // ---------------------------------------------------------------- what holds at every head

  function Steps(evals: seq<Evaluation>): (steps: seq<nat>)
    ensures |steps| == |evals| && forall i :: 0 <= i < |evals| ==> steps[i] == evals[i].step
  {
    seq(|evals|, i requires 0 <= i < |evals| => evals[i].step)
  }

  /** Exactly the multiples of the interval after `from` up to `to`, in order; the last may also lie at or
      beyond the limit. */
  ghost predicate EvaluatedAt(c: Config, from: nat, to: nat, steps: seq<nat>)
    requires c.interval >= 1
  {
    && (forall i, j :: 0 <= i < j < |steps| ==> steps[i] < steps[j])
    && (forall i :: 0 <= i < |steps| ==> from < steps[i] <= to && Due(c, steps[i]))
    && (forall i :: 0 <= i < |steps| && steps[i] % c.interval != 0 ==> i == |steps| - 1)
    && (forall m :: from < m <= to && m % c.interval == 0 ==> m in steps)
  }

  lemma NextMultiple(step: nat, m: nat, interval: nat)
    requires interval >= 1 && step < m && m % interval == 0
    ensures m >= step + interval - step % interval
  {
    var q, p := step / interval, m / interval;
    assert step == interval * q + step % interval;
    assert m == interval * p;
    if p <= q {
      MulMonotone(interval, p, q);
      assert false;
    }
    MulMonotone(interval, q + 1, p);
  }

  lemma StepHits(at: nat, multiple: nat, count: nat, interval: nat)
    requires interval >= 1 && multiple % interval == 0
    requires at < multiple <= at + count && count <= interval - at % interval
    ensures multiple == at + count
  {
    NextMultiple(at, multiple, interval);
  }

  /** A step of at most the distance to the next multiple passes none of them. */
  lemma CoverStep(c: Config, from: nat, at: nat, count: nat, steps: seq<nat>)
    requires c.interval >= 1 && from <= at && EvaluatedAt(c, from, at, steps)
    requires 1 <= count <= c.interval - at % c.interval && (steps != [] ==> at < c.maxSteps)
    ensures var to := at + count;
      && (!Due(c, to) ==> EvaluatedAt(c, from, to, steps))
      && (Due(c, to) ==> EvaluatedAt(c, from, to, steps + [to]))
  {
    var to := at + count;
    var more := if Due(c, to) then steps + [to] else steps;
    forall m | from < m <= to && m % c.interval == 0 ensures m in more {
      if m <= at {
        assert m in steps;
        var i :| 0 <= i < |steps| && steps[i] == m;
        assert more[i] == m;
      } else {
        StepHits(at, m, count, c.interval);
        assert more[|more| - 1] == m;
      }
    }
  }

  predicate InRange(c: Config, batch: nat) {
    c.batchMin <= batch <= c.batchMax
  }

  ghost predicate AllKeep(c: Config, start: Book, evals: seq<Evaluation>, k: nat)
    requires k <= |evals|
  {
    forall i :: 0 < i <= k ==> VerdictAt(start, c.policy, evals, i, c.maxSteps) == KeepTraining
  }

  /** What holds whenever a turn of the loop opened in s0 begins. */
  ghost predicate Head(c: Config, start: Book, s0: LoopState, s: LoopState)
    requires c.interval >= 1
  {
    && s0.step <= s.step && (s.step < c.maxSteps || (s.step == s0.step && s.evals == []))
    && EvaluatedAt(c, s0.step, s.step, Steps(s.evals))
    && AllKeep(c, start, s.evals, |s.evals|)
    && |s.saves| == |s.evals| && (forall i :: 0 <= i < |s.saves| ==> !s.saves[i].SaveFailed?)
    && (InRange(c, s0.batch) ==> InRange(c, s.batch))
    && (!c.auto ==> s.batch == s0.batch)
  }

  /** What holds when it has trained or evaluated in its last turn. */
  ghost predicate Past(c: Config, start: Book, s0: LoopState, s: LoopState)
    requires c.interval >= 1
  {
    && (s0.step < c.maxSteps ==> s0.step <= s.step <= c.maxSteps)
    && |s.saves| == |s.evals| && (forall i :: 0 <= i < |s.saves| ==> !s.saves[i].SaveFailed?)
    && (InRange(c, s0.batch) ==> InRange(c, s.batch))
    && (!c.auto ==> s.batch == s0.batch)
  }

  lemma AdaptedStays(c: Config, batch: nat, book: Book)
    ensures InRange(c, batch) ==> InRange(c, Adapted(c, batch, book))
    ensures !c.auto ==> Adapted(c, batch, book) == batch
    ensures Adapted(c, batch, book) <= 2 * batch || batch < c.batchMin
    ensures InRange(c, batch) ==> batch / 2 <= Adapted(c, batch, book)
  {
  }

  /** Verdicts on an earlier part of the log do not change. */
  lemma KeepsMore(c: Config, start: Book, evals: seq<Evaluation>, e: Evaluation)
    requires AllKeep(c, start, evals, |evals|)
    ensures AllKeep(c, start, evals + [e], |evals|)
    ensures VerdictAt(start, c.policy, evals + [e], |evals| + 1, c.maxSteps) == KeepTraining ==>
      AllKeep(c, start, evals + [e], |evals| + 1)
  {
    forall i | 0 < i <= |evals|
      ensures VerdictAt(start, c.policy, evals + [e], i, c.maxSteps) == KeepTraining
    {
      assert (evals + [e])[..i] == evals[..i];
      assert VerdictAt(start, c.policy, evals, i, c.maxSteps) == KeepTraining;
    }
  }

  /** After training alone. */
  lemma SteppedFacts(c: Config, start: Book, s0: LoopState, s: LoopState, loss: real)
    requires c.interval >= 1 && Head(c, start, s0, s)
    ensures var s1 := Stepped(c, s, loss);
      && s0.step < s1.step && (s0.step < c.maxSteps ==> s1.step <= c.maxSteps)
      && (!Due(c, s1.step) ==> EvaluatedAt(c, s0.step, s1.step, Steps(s1.evals)))
      && (Due(c, s1.step) ==> EvaluatedAt(c, s0.step, s1.step, Steps(s1.evals) + [s1.step]))
  {
    hide AllKeep, Due, EvaluatedAt, ChunkSteps;
    CoverStep(c, s0.step, s.step, Executed(c, s.step, s.batch), Steps(s.evals));
  }

  /** After an evaluation with a step in between. */
  lemma EvaluatedFacts(c: Config, start: Book, s0: LoopState, s: LoopState, loss: real, score: real, save: SaveReply)
    requires c.interval >= 1 && Head(c, start, s0, s) && !save.SaveFailed?
    requires Due(c, Stepped(c, s, loss).step)
    ensures var s1 := Stepped(c, s, loss);
      var s2 := Evaluated(c, start, s1, score, save);
      && s2.step == s1.step
      && s2.evals == s.evals + [Evaluation(s1.step, score)] && s2.saves == s.saves + [save]
      && s2.batch == Adapted(c, s.batch, After(start, c.policy, s2.evals))
      && EvaluatedAt(c, s0.step, s2.step, Steps(s2.evals))
      && AllKeep(c, start, s2.evals, |s.evals|)
      && Past(c, start, s0, s2)
      && (s2.step < c.maxSteps && VerdictAt(start, c.policy, s2.evals, |s2.evals|, c.maxSteps) == KeepTraining ==>
            Head(c, start, s0, s2))
  {
    hide EvaluatedAt, AllKeep, After, Shrinks, Grows, VerdictAt, Due;
    var s1 := Stepped(c, s, loss);
    SteppedFacts(c, start, s0, s, loss);
    var e := Evaluation(s1.step, score);
    assert Steps(s.evals + [e]) == Steps(s.evals) + [s1.step];
    KeepsMore(c, start, s.evals, e);
    EvaluatedShape(c, start, s1, score, save);
    AdaptedStays(c, s.batch, After(start, c.policy, s.evals + [e]));
  }

  lemma LoggedFacts(c: Config, start: Book, s0: LoopState, s: LoopState, loss: real, score: real, save: SaveReply)
    requires c.interval >= 1 && Head(c, start, s0, s) && !save.SaveFailed?
    ensures Past(c, start, s0, Logged(Stepped(c, s, loss), score, save))
  {
    hide EvaluatedAt, AllKeep, Due, Executed;
    SteppedFacts(c, start, s0, s, loss);
  }

  lemma EvaluatedShape(c: Config, start: Book, s: LoopState, score: real, save: SaveReply)
    ensures var s' := Evaluated(c, start, s, score, save);
      && s'.step == s.step && s'.loss == s.loss
      && s'.evals == s.evals + [Evaluation(s.step, score)] && s'.saves == s.saves + [save]
      && s'.batch == Adapted(c, s.batch, After(start, c.policy, s'.evals))
  {
    hide After, Unstable, Steady;
  }

  lemma KeepMeansBelow(start: Book, policy: Policy, evals: seq<Evaluation>, maxSteps: nat)
    requires evals != [] && VerdictAt(start, policy, evals, |evals|, maxSteps) == KeepTraining
    ensures evals[|evals| - 1].step < maxSteps
  {
    hide After, Scores;
  }

  lemma HeadStep(c: Config, start: Book, s0: LoopState, s: LoopState, now: Reaction)
    requires c.interval >= 1 && Head(c, start, s0, s) && Turned(c, start, s, now).Onward?
    ensures Head(c, start, s0, Turned(c, start, s, now).s)
  {
    hide EvaluatedAt, AllKeep, After, Evaluated, VerdictAt, ChunkSteps, Executed;
    match now.train
    case OutOfMemory =>
    case TrainFailed =>
    case Trained(loss) =>
      var s1 := Stepped(c, s, loss);
      SteppedFacts(c, start, s0, s, loss);
      if Due(c, s1.step) {
        EvaluatedFacts(c, start, s0, s, loss, now.eval.score, now.save);
        KeepMeansBelow(start, c.policy, Evaluated(c, start, s1, now.eval.score, now.save).evals, c.maxSteps);
      }
  }

  predicate Opened(s0: LoopState) {
    s0.evals == [] && s0.saves == []
  }

  /** At the head of every turn, in every environment: the limit was not overshot, exactly the multiples of
      the interval were evaluated, no verdict has said stop, and the batch is in range. */
  lemma {:induction false} EveryHead(c: Config, start: Book, s0: LoopState, env: nat -> Reaction, n: nat)
    requires c.interval >= 1 && Opened(s0) && Reached(c, start, s0, env, n).Some?
    ensures Head(c, start, s0, Reached(c, start, s0, env, n).value)
    decreases n
  {
    hide Turned, EvaluatedAt;
    if n == 0 {
      NothingEvaluated(c, s0.step);
      assert Steps([]) == [];
    } else {
      EveryHead(c, start, s0, env, n - 1);
      HeadStep(c, start, s0, Reached(c, start, s0, env, n - 1).value, env(n - 1));
    }
  }

  lemma NothingEvaluated(c: Config, from: nat)
    requires c.interval >= 1
    ensures EvaluatedAt(c, from, from, [])
  {
  }

  /** And at the end of every run: no overshoot, batch in range; unless it crashed, every multiple of the
      interval was evaluated, and a completion's verdict is the first one that says stop. */
  lemma EveryEnd(c: Config, start: Book, s0: LoopState, env: nat -> Reaction, finish: FinishReply, restores: bool,
                 turns: nat, ending: Ending)
    requires c.interval >= 1 && Opened(s0) && Ran(c, start, s0, env, finish, restores, turns, ending)
    ensures Past(c, start, s0, ending.s)
    ensures ending.end != CrashedEnd && s0.step < c.maxSteps ==>
      EvaluatedAt(c, s0.step, ending.s.step, Steps(ending.s.evals))
    ensures ending.end in {StoppedEnd, PausedEnd} ==> AllKeep(c, start, ending.s.evals, |ending.s.evals|)
    ensures ending.end.CompletedEnd? ==>
      && ending.s.evals != [] && AllKeep(c, start, ending.s.evals, |ending.s.evals| - 1)
      && VerdictAt(start, c.policy, ending.s.evals, |ending.s.evals|, c.maxSteps) == ending.end.verdict != KeepTraining
  {
    hide EvaluatedAt, AllKeep, Evaluated, VerdictAt, After, ChunkSteps, Executed, Reached;
    EveryHead(c, start, s0, env, turns);
    var s, now := Reached(c, start, s0, env, turns).value, env(turns);
    if !now.stop && !now.pause && now.train.Trained? {
      SteppedFacts(c, start, s0, s, now.train.loss);
      if Due(c, Stepped(c, s, now.train.loss).step) && now.eval.Scored? && !now.save.SaveFailed? {
        LoggedFacts(c, start, s0, s, now.train.loss, now.eval.score, now.save);
        EvaluatedFacts(c, start, s0, s, now.train.loss, now.eval.score, now.save);
        var evals := Evaluated(c, start, Stepped(c, s, now.train.loss), now.eval.score, now.save).evals;
        MaxStepsMeansReached(start, c.policy, evals, c.maxSteps);
      }
    }
  }

  lemma MaxStepsMeansReached(start: Book, policy: Policy, evals: seq<Evaluation>, maxSteps: nat)
    requires evals != []
    ensures VerdictAt(start, policy, evals, |evals|, maxSteps) == MaxSteps ==> evals[|evals| - 1].step >= maxSteps
  {
    hide After, Scores;
  }

  // ---------------------------------------------------------------- where the log comes from

  /** Evaluation k was reported by the backend in turn at[k], after a training reply, with its save. */
  ghost predicate ReportedAt(c: Config, start: Book, s0: LoopState, env: nat -> Reaction, s: LoopState,
                             k: nat, turn: nat)
    requires c.interval >= 1 && k < |s.evals| == |s.saves|
  {
    var head := Reached(c, start, s0, env, turn);
    && head.Some? && head.value.evals == s.evals[..k]
    && env(turn).train.Trained? && env(turn).eval == Scored(s.evals[k].score) && env(turn).save == s.saves[k]
    && s.evals[k].step == head.value.step + Executed(c, head.value.step, head.value.batch)
  }

  /** Every evaluation of a log has its own turn, in order, and no turn in between evaluated anything. */
  lemma {:induction false} EvaluationsAreReported(c: Config, start: Book, s0: LoopState, env: nat -> Reaction, n: nat)
    returns (at: seq<nat>)
    requires c.interval >= 1 && Opened(s0) && Reached(c, start, s0, env, n).Some?
    ensures var s := Reached(c, start, s0, env, n).value;
      && |at| == |s.evals| == |s.saves|
      && (forall k :: 0 <= k < |at| ==> at[k] < n && ReportedAt(c, start, s0, env, s, k, at[k]))
      && (forall j, k :: 0 <= j < k < |at| ==> at[j] < at[k])
    decreases n
  {
    hide Executed, Turned, ReportedAt;
    if n == 0 {
      at := [];
    } else {
      var before := EvaluationsAreReported(c, start, s0, env, n - 1);
      var s, now := Reached(c, start, s0, env, n - 1).value, env(n - 1);
      var s' := Reached(c, start, s0, env, n).value;
      TurnLogs(c, start, s, now);
      if s'.evals == s.evals {
        at := before;
        forall k | 0 <= k < |at| ensures ReportedAt(c, start, s0, env, s', k, at[k]) {
          StillReported(c, start, s0, env, s, s', k, at[k]);
        }
      } else {
        at := before + [n - 1];
        forall k | 0 <= k < |before| ensures ReportedAt(c, start, s0, env, s', k, at[k]) {
          StillReported(c, start, s0, env, s, s', k, before[k]);
        }
        NowReported(c, start, s0, env, s, s', n - 1);
      }
    }
  }

  /** The same for the log that a run ends with, whether or not its last turn evaluated. */
  lemma EveryEvaluationWasReported(c: Config, start: Book, s0: LoopState, env: nat -> Reaction, finish: FinishReply,
                                   restores: bool, turns: nat, ending: Ending) returns (at: seq<nat>)
    requires c.interval >= 1 && Opened(s0) && Ran(c, start, s0, env, finish, restores, turns, ending)
    ensures |at| == |ending.s.evals| == |ending.s.saves|
    ensures forall k :: 0 <= k < |at| ==> at[k] <= turns && ReportedAt(c, start, s0, env, ending.s, k, at[k])
    ensures forall j, k :: 0 <= j < k < |at| ==> at[j] < at[k]
  {
    hide Executed, Turned, ReportedAt, Reached;
    at := EvaluationsAreReported(c, start, s0, env, turns);
    var s, now := Reached(c, start, s0, env, turns).value, env(turns);
    var s' := ending.s;
    LastTurnLogs(c, start, s, now, finish, restores);
    forall k | 0 <= k < |s.evals| ensures ReportedAt(c, start, s0, env, s', k, at[k]) {
      StillReported(c, start, s0, env, s, s', k, at[k]);
    }
    if s'.evals != s.evals {
      NowReported(c, start, s0, env, s, s', turns);
      at := at + [turns];
    }
  }

  lemma LastTurnLogs(c: Config, start: Book, s: LoopState, now: Reaction, finish: FinishReply, restores: bool)
    requires c.interval >= 1 && EndsIn(c, start, s, now, finish, restores).Some?
    ensures var s' := EndsIn(c, start, s, now, finish, restores).value.s;
      if s'.evals == s.evals then s'.saves == s.saves
      else
        && now.train.Trained? && now.eval.Scored?
        && s'.evals == s.evals + [Evaluation(s.step + Executed(c, s.step, s.batch), now.eval.score)]
        && s'.saves == s.saves + [now.save]
  {
    hide After, VerdictAt, Executed, Shrinks, Grows, Improves;
  }

  lemma StillReported(c: Config, start: Book, s0: LoopState, env: nat -> Reaction, s: LoopState, s': LoopState,
                      k: nat, turn: nat)
    requires c.interval >= 1 && k < |s.evals| == |s.saves| && |s'.evals| == |s'.saves|
    requires s.evals <= s'.evals && s.saves <= s'.saves && ReportedAt(c, start, s0, env, s, k, turn)
    ensures ReportedAt(c, start, s0, env, s', k, turn)
  {
    hide Reached, Executed;
    assert s'.evals[..k] == s.evals[..k];
  }

  lemma NowReported(c: Config, start: Book, s0: LoopState, env: nat -> Reaction, s: LoopState, s': LoopState, turn: nat)
    requires c.interval >= 1 && |s.evals| == |s.saves| && Reached(c, start, s0, env, turn) == Some(s)
    requires env(turn).train.Trained? && env(turn).eval.Scored?
    requires s'.evals == s.evals + [Evaluation(s.step + Executed(c, s.step, s.batch), env(turn).eval.score)]
    requires s'.saves == s.saves + [env(turn).save]
    ensures ReportedAt(c, start, s0, env, s', |s.evals|, turn)
  {
    hide Reached, Executed;
    assert s'.evals[..|s.evals|] == s.evals;
  }

  /** A turn that goes on logs nothing, or the one evaluation that it was told. */
  lemma TurnLogs(c: Config, start: Book, s: LoopState, now: Reaction)
    requires c.interval >= 1 && Turned(c, start, s, now).Onward?
    ensures var s' := Turned(c, start, s, now).s;
      if s'.evals == s.evals then s'.saves == s.saves
      else
        && now.train.Trained? && now.eval.Scored?
        && s'.evals == s.evals + [Evaluation(s.step + Executed(c, s.step, s.batch), now.eval.score)]
        && s'.saves == s.saves + [now.save]
  {
    hide After, VerdictAt, Executed, Shrinks, Grows;
  }

  // ---------------------------------------------------------------- the planned batch range

  /** From the plan through any run in auto mode: the batch never leaves the planned range, and so never asks
      for more memory than the plan allowed. */
  lemma PlannedBatchStaysSafe(records: int, features: int, profile: Batch.Profile, ramPercent: int, ramGb: real,
                              requested: Option<int>, c: Config, start: Book, s0: LoopState, env: nat -> Reaction,
                              n: nat)
    requires c.interval >= 1 && c.auto && Opened(s0) && Reached(c, start, s0, env, n).Some?
    requires var r := Batch.PlanBatch(records, features, profile, ramPercent, ramGb, Batch.Auto, requested);
      r.Ok? ==> c.batchMin == r.value.safeMin && c.batchMax == r.value.safeMax && s0.batch == r.value.applied
    ensures var r := Batch.PlanBatch(records, features, profile, ramPercent, ramGb, Batch.Auto, requested);
      && r.Ok?
      && var batch := Reached(c, start, s0, env, n).value.batch;
      && 2 <= r.value.safeMin <= batch <= r.value.safeMax
      && (r.value.safeMax != 2 ==>
            batch as real * Batch.BytesPerSample(features) as real <= Batch.UsableBytes(profile, ramPercent, ramGb))
  {
    hide Batch.PlanBatch, Batch.UsableBytes, Batch.PowerOfTwo, Turned, EvaluatedAt, AllKeep, Reached;
    Batch.PlanIsSafe(records, features, profile, ramPercent, ramGb, Batch.Auto, requested);
    EveryHead(c, start, s0, env, n);
    var plan := Batch.PlanBatch(records, features, profile, ramPercent, ramGb, Batch.Auto, requested).value;
    var batch, each := Reached(c, start, s0, env, n).value.batch, Batch.BytesPerSample(features);
    assert (plan.safeMax - batch) as real * each as real >= 0.0;
    assert plan.safeMax as real * each as real ==
           batch as real * each as real + (plan.safeMax - batch) as real * each as real;
  }
}
