/** What every interleaving of commands, scheduler ticks, workers and shutdown keeps. */
module LifecycleSafety {
  import opened Options
  import opened Lifecycle

  // ---------------------------------------------------------------- resource sums

  lemma {:induction false} UsageInsert(store: map<Id, Run>, ids: set<Id>, id: Id, resource: Resource)
    requires ids <= store.Keys && id in store && id !in ids
    ensures Usage(store, ids + {id}, resource) == Usage(store, ids, resource) + Demand(store[id], resource)
    decreases ids
  {
    var all := ids + {id};
    var picked :| picked in all &&
      Usage(store, all, resource) == Demand(store[picked], resource) + Usage(store, all - {picked}, resource);
    if picked == id {
      assert all - {id} == ids;
    } else {
      var rest := ids - {picked};
      assert all - {picked} == rest + {id};
      UsageInsert(store, rest, id, resource);
      UsageInsert(store, rest, picked, resource);
      assert rest + {picked} == ids;
    }
  }

  lemma {:induction false} UsageFrame(a: map<Id, Run>, b: map<Id, Run>, ids: set<Id>, resource: Resource)
    requires ids <= a.Keys && ids <= b.Keys
    requires forall id :: id in ids ==> Demand(a[id], resource) == Demand(b[id], resource)
    ensures Usage(a, ids, resource) == Usage(b, ids, resource)
    decreases ids
  {
    if ids != {} {
      var id :| id in ids &&
        Usage(a, ids, resource) == Demand(a[id], resource) + Usage(a, ids - {id}, resource);
      UsageFrame(a, b, ids - {id}, resource);
      UsageInsert(b, ids - {id}, id, resource);
      assert ids - {id} + {id} == ids;
    }
  }

  lemma {:induction false} UsageMonotone(store: map<Id, Run>, small: set<Id>, large: set<Id>, resource: Resource)
    requires small <= large <= store.Keys
    ensures Usage(store, small, resource) <= Usage(store, large, resource)
    decreases large - small
  {
    if small != large {
      var id :| id in large && id !in small;
      UsageInsert(store, small, id, resource);
      UsageMonotone(store, small + {id}, large, resource);
    }
  }

  // ---------------------------------------------------------------- the invariant

  /** What admission control reads of a record; nothing in the lifecycle rewrites it. */
  predicate SameConfig(a: Run, b: Run) {
    a.priority == b.priority && a.createdAt == b.createdAt && a.gpu == b.gpu && a.ram == b.ram && a.cpu == b.cpu
  }

  predicate FlagsAgree(run: Run) {
    match run.status
    case Draft | Queued | Training | Completed => !run.paused && !run.stopRequested
    case Pausing | Paused => run.paused && !run.stopRequested
    case Stopping | Stopped => run.paused && run.stopRequested
    case ErrorRecoverable => run.paused
  }

  predicate ControlAgrees(status: Status, control: Control) {
    match status
    case Queued | Training => control == NO_CONTROL
    case Pausing => control == Control(true, false)
    case Stopping => control.stop
    case _ => true
  }

  /** One record against its control flags and whether a worker is registered for it. */
  predicate RunAgrees(run: Run, control: Control, live: bool) {
    && WithinBounds(run)
    && (Live(run.status) <==> live)
    && FlagsAgree(run)
    && ControlAgrees(run.status, control)
  }

  /** The registry and the live threads are two views of one bijection. */
  ghost predicate OneWorkerPerRun(s: State) {
    && (forall id :: id in s.threads ==> s.threads[id] in s.workers && s.workers[s.threads[id]].run == id)
    && (forall tid :: tid in s.workers ==>
          s.workers[tid].run in s.threads && s.threads[s.workers[tid].run] == tid && tid < s.nextTid)
  }

  ghost predicate RunsAgree(s: State) {
    forall id :: id in s.store ==> RunAgrees(s.store[id], SetDefault(s.controls, id), id in s.threads)
  }

  ghost predicate WorkersAgree(s: State)
    requires s.threads.Keys <= s.store.Keys && OneWorkerPerRun(s)
  {
    forall tid :: tid in s.workers ==> WorkerAgrees(s.store[s.workers[tid].run], s.workers[tid])
  }

  predicate WorkerAgrees(run: Run, w: Worker) {
    && (w.copy.Some? ==> SameConfig(w.copy.value, run))
    && (w.phase == Exited(Returned(StopOutcome)) ==> run.status == Stopping)
    && (w.phase == Exited(Returned(PauseOutcome)) ==> run.status in {Pausing, Stopping})
    && w.phase != Exited(Returned(ErrorOutcome))
  }

  ghost predicate WithinCapacity(s: State)
    requires s.threads.Keys <= s.store.Keys
  {
    forall resource: Resource :: Usage(s.store, s.threads.Keys, resource) <= CAP
  }

  ghost predicate Inv(s: State) {
    && s.threads.Keys <= s.store.Keys
    && RunsAgree(s)
    && OneWorkerPerRun(s)
    && WorkersAgree(s)
    && WithinCapacity(s)
  }

  /** Steps that start no worker cannot raise the resource usage. */
  lemma CapacityKept(s: State, s': State)
    requires s.threads.Keys <= s.store.Keys && WithinCapacity(s)
    requires s'.threads.Keys <= s.threads.Keys && s'.threads.Keys <= s'.store.Keys
    requires forall id :: id in s.threads && id in s'.store ==> SameConfig(s.store[id], s'.store[id])
    ensures WithinCapacity(s')
  {
    forall resource: Resource
      ensures Usage(s'.store, s'.threads.Keys, resource) <= CAP
    {
      UsageFrame(s.store, s'.store, s'.threads.Keys, resource);
      UsageMonotone(s.store, s'.threads.Keys, s.threads.Keys, resource);
    }
  }

  lemma InvCreate(s: State, id: Id, run: Run)
    requires Inv(s) && Enabled(s, Create(id, run))
    ensures Inv(s.(store := s.store[id := run]))
  {
    CapacityKept(s, s.(store := s.store[id := run]));
  }

  /** A command touches one record and one control entry, and leaves both in agreement. */
  lemma IssueAgrees(s: State, id: Id, command: Command)
    requires id in s.store && RunAgrees(s.store[id], SetDefault(s.controls, id), id in s.threads)
    ensures var s' := Commanded(s, id, command).0;
      && s' == s.(store := s'.store, controls := s'.controls)
      && id in s'.store && s'.store == s.store[id := s'.store[id]]
      && (s'.controls == s.controls || (id in s'.controls && s'.controls == s.controls[id := s'.controls[id]]))
      && RunAgrees(s'.store[id], SetDefault(s'.controls, id), id in s.threads)
      && SameConfig(s'.store[id], s.store[id])
      && (s.store[id].status in {Pausing, Stopping} ==>
            s'.store[id].status in {s.store[id].status, Stopping})
  {
  }

  lemma InvIssue(s: State, id: Id, command: Command)
    requires Inv(s)
    ensures Inv(Commanded(s, id, command).0)
  {
    if id in s.store {
      IssueAgrees(s, id, command);
      InvOneRun(s, Commanded(s, id, command).0, id);
    }
  }

  /** A step that rewrites one record in agreement, without touching workers, keeps the invariant. */
  lemma InvOneRun(s: State, s': State, id: Id)
    requires Inv(s) && id in s.store && id in s'.store
    requires s' == s.(store := s'.store, controls := s'.controls)
    requires s'.store == s.store[id := s'.store[id]]
    requires s'.controls == s.controls || (id in s'.controls && s'.controls == s.controls[id := s'.controls[id]])
    requires RunAgrees(s'.store[id], SetDefault(s'.controls, id), id in s.threads)
    requires SameConfig(s'.store[id], s.store[id])
    requires s.store[id].status in {Pausing, Stopping} ==> s'.store[id].status in {s.store[id].status, Stopping}
    ensures Inv(s')
  {
    CapacityKept(s, s');
    forall other | other in s'.store
      ensures RunAgrees(s'.store[other], SetDefault(s'.controls, other), other in s'.threads)
    {
      assert other != id ==> SetDefault(s'.controls, other) == SetDefault(s.controls, other);
    }
  }

  /** A step of one worker on its own copy or phase keeps the invariant. */
  lemma InvOneWorker(s: State, tid: Tid, w: Worker)
    requires Inv(s) && tid in s.workers && w.run == s.workers[tid].run
    requires w.run in s.store && WorkerAgrees(s.store[w.run], w)
    ensures Inv(s.(workers := s.workers[tid := w]))
  {
  }

  lemma InvLaunch(s: State, id: Id)
    requires Inv(s) && Eligible(s, id) && CanStart(s, s.store[id])
    ensures Inv(Launched(s, id))
  {
    var s' := Launched(s, id);
    LaunchFits(s, id);
    forall other | other in s'.store
      ensures RunAgrees(s'.store[other], SetDefault(s'.controls, other), other in s'.threads)
    {
      assert RunAgrees(s.store[other], SetDefault(s.controls, other), other in s.threads);
    }
    LaunchOneWorker(s, id);
    forall tid | tid in s'.workers
      ensures WorkerAgrees(s'.store[s'.workers[tid].run], s'.workers[tid])
    {
      if tid != s.nextTid {
        assert WorkerAgrees(s.store[s.workers[tid].run], s.workers[tid]);
      }
    }
  }

  lemma LaunchOneWorker(s: State, id: Id)
    requires id in s.store && id !in s.threads && OneWorkerPerRun(s)
    ensures OneWorkerPerRun(Launched(s, id))
  {
  }

  lemma LaunchFits(s: State, id: Id)
    requires s.threads.Keys <= s.store.Keys && Eligible(s, id) && CanStart(s, s.store[id])
    ensures WithinCapacity(Launched(s, id))
  {
    var s' := Launched(s, id);
    assert s'.threads.Keys == s.threads.Keys + {id};
    forall resource: Resource
      ensures Usage(s'.store, s'.threads.Keys, resource) <= CAP
    {
      UsageFrame(s.store, s'.store, s.threads.Keys, resource);
      UsageInsert(s'.store, s.threads.Keys, id, resource);
    }
  }

  lemma {:induction false} InvTick(s: State, order: seq<Id>)
    requires Inv(s)
    ensures Inv(Ticked(s, order))
    decreases |order|
  {
    if order != [] {
      var id := order[0];
      if Eligible(s, id) && CanStart(s, s.store[id]) {
        InvLaunch(s, id);
      }
      InvTick(Admitted(s, id), order[1..]);
    }
  }

  lemma CloseRun(s: State, id: Id)
    requires s.threads.Keys <= s.store.Keys && id in s.store
    ensures var s' := ClosePaused(s);
      && s'.threads == s.threads && s'.workers == s.workers && s'.nextTid == s.nextTid
      && s'.store.Keys == s.store.Keys
      && s'.store[id] == (if id in s.threads then PauseForClose(s.store[id]) else s.store[id])
      && SetDefault(s'.controls, id) == (if id in s.threads then SetDefault(s.controls, id).(pause := true)
                                         else SetDefault(s.controls, id))
      && SameConfig(s.store[id], s'.store[id])
      && (s.store[id].status in {Pausing, Stopping} ==> s'.store[id].status == s.store[id].status)
  {
  }

  lemma CloseAgrees(run: Run, control: Control)
    requires RunAgrees(run, control, true)
    ensures RunAgrees(PauseForClose(run), control.(pause := true), true)
  {
  }

  lemma InvClose(s: State)
    requires Inv(s)
    ensures Inv(ClosePaused(s))
  {
    hide ClosePaused, PausedFor, PauseForClose, SetDefault, RunAgrees, WithinCapacity, SameConfig;
    var s' := ClosePaused(s);
    forall id | id in s.store
      ensures s'.threads == s.threads && s'.workers == s.workers && s'.nextTid == s.nextTid
      ensures id in s'.store && SameConfig(s.store[id], s'.store[id])
      ensures RunAgrees(s'.store[id], SetDefault(s'.controls, id), id in s'.threads)
      ensures s.store[id].status in {Pausing, Stopping} ==> s'.store[id].status == s.store[id].status
    {
      CloseRun(s, id);
      if id in s.threads { CloseAgrees(s.store[id], SetDefault(s.controls, id)); }
    }
    CloseShape(s);
    CapacityKept(s, s');
    WorkersStillAgree(s, s');
  }

  lemma CloseShape(s: State)
    ensures var s' := ClosePaused(s);
      s'.threads == s.threads && s'.workers == s.workers && s'.nextTid == s.nextTid && s'.store.Keys == s.store.Keys
  {
  }

  /** Workers stay in agreement when no configuration changes and no halt is taken back. */
  lemma WorkersStillAgree(s: State, s': State)
    requires s.threads.Keys <= s.store.Keys && OneWorkerPerRun(s) && WorkersAgree(s)
    requires s'.threads == s.threads && s'.workers == s.workers && s.store.Keys <= s'.store.Keys
    requires OneWorkerPerRun(s')
    requires forall id :: id in s.store ==> SameConfig(s.store[id], s'.store[id])
    requires forall id :: id in s.store && s.store[id].status in {Pausing, Stopping} ==>
      s'.store[id].status in {s.store[id].status, Stopping}
    ensures WorkersAgree(s')
  {
    forall tid | tid in s'.workers ensures WorkerAgrees(s'.store[s'.workers[tid].run], s'.workers[tid]) {
      assert WorkerAgrees(s.store[s.workers[tid].run], s.workers[tid]);
    }
  }

  lemma InvSave(s: State, tid: Tid)
    requires Inv(s) && Enabled(s, Save(tid))
    ensures Inv(Saved(s, tid))
  {
    var w := s.workers[tid];
    assert RunAgrees(s.store[w.run], SetDefault(s.controls, w.run), true);
    var run := Merged(w.copy.value, s.store[w.run]);
    var s' := s.(store := s.store[w.run := run]);
    InvOneRun(s, s', w.run);
    InvOneWorker(s', tid, w.(copy := Some(run)));
  }

  lemma InvLoad(s: State, tid: Tid)
    requires Inv(s) && Enabled(s, Load(tid))
    ensures Inv(Loaded(s, tid))
  {
    hide Inv;
    WorkerInAgreement(s, tid);
    InvOneWorker(s, tid, Loaded(s, tid).workers[tid]);
  }

  lemma InvCompute(s: State, tid: Tid, progress: Progress, message: Message, reason: Reason)
    requires Inv(s) && Enabled(s, Compute(tid, progress, message, reason))
    ensures Inv(Computed(s, tid, progress, message, reason))
  {
    hide Inv;
    WorkerInAgreement(s, tid);
    InvOneWorker(s, tid, Computed(s, tid, progress, message, reason).workers[tid]);
  }

  lemma InvLeave(s: State, tid: Tid, exit: Exit)
    requires Inv(s) && Enabled(s, Leave(tid, exit))
    ensures Inv(Leaving(s, tid, exit))
  {
    hide Inv;
    WorkerInAgreement(s, tid);
    InvOneWorker(s, tid, Leaving(s, tid, exit).workers[tid]);
  }

  lemma WorkerInAgreement(s: State, tid: Tid)
    requires Inv(s) && tid in s.workers
    ensures var w := s.workers[tid];
      && w.run in s.store && w.run in s.threads && s.threads[w.run] == tid
      && WorkerAgrees(s.store[w.run], w)
      && RunAgrees(s.store[w.run], SetDefault(s.controls, w.run), true)
  {
    assert RunAgrees(s.store[s.workers[tid].run], SetDefault(s.controls, s.workers[tid].run), true);
  }

  lemma InvObserve(s: State, tid: Tid)
    requires Inv(s) && Enabled(s, Observe(tid))
    ensures Inv(Observed(s, tid))
  {
    var w := s.workers[tid];
    assert RunAgrees(s.store[w.run], SetDefault(s.controls, w.run), true);
    InvOneWorker(s, tid, Observed(s, tid).workers[tid]);
  }

  lemma InvFinalize(s: State, tid: Tid)
    requires Inv(s) && Enabled(s, Finalize(tid))
    ensures Inv(Finalized(s, tid))
  {
    hide RunAgrees, WithinCapacity, WorkersAgree, OneWorkerPerRun, Finalized, SettledRun, SettledOutcome, WorkerAgrees,
      SameConfig, SetDefault, HowItEnds;
    WorkerInAgreement(s, tid);
    var id := s.workers[tid].run;
    var s' := Finalized(s, tid);
    FinalizedShape(s, tid);
    SettledAgrees(s.store[id], SetDefault(s.controls, id), s.workers[tid]);
    forall other | other in s.store
      ensures RunAgrees(s'.store[other], SetDefault(s'.controls, other), other in s'.threads)
      ensures SameConfig(s.store[other], s'.store[other])
    {
      FinalizedRun(s, tid, other);
      SameConfigSelf(s.store[other]);
      assert RunAgrees(s.store[other], SetDefault(s.controls, other), other in s.threads);
    }
    CapacityKept(s, s');
    FinalizedWorkers(s, tid);
  }

  lemma FinalizedShape(s: State, tid: Tid)
    requires tid in s.workers && s.workers[tid].phase.Exited? && s.workers[tid].run in s.store
    ensures var s' := Finalized(s, tid);
      && s'.store.Keys == s.store.Keys && s'.threads.Keys == s.threads.Keys - {s.workers[tid].run}
  {
  }

  lemma FinalizedRun(s: State, tid: Tid, id: Id)
    requires tid in s.workers && s.workers[tid].phase.Exited? && s.workers[tid].run in s.store && id in s.store
    ensures var s', w := Finalized(s, tid), s.workers[tid];
      if id == w.run then
        && id !in s'.threads && SetDefault(s'.controls, id) == NO_CONTROL
        && var outcome := SettledOutcome(s.store[id], SetDefault(s.controls, id), w.phase.exit);
           s'.store[id] == SettledRun(s.store[id], outcome, w.phase.exit == Raised)
      else
        && s'.store[id] == s.store[id] && (id in s'.threads <==> id in s.threads)
        && SetDefault(s'.controls, id) == SetDefault(s.controls, id)
  {
    hide SettledOutcome, SettledRun;
  }

  lemma FinalizedWorkers(s: State, tid: Tid)
    requires s.threads.Keys <= s.store.Keys && OneWorkerPerRun(s) && WorkersAgree(s)
    requires tid in s.workers && s.workers[tid].phase.Exited?
    ensures var s' := Finalized(s, tid);
      s'.threads.Keys <= s'.store.Keys && OneWorkerPerRun(s') && WorkersAgree(s')
  {
    hide SettledOutcome, SettledRun, WorkerAgrees;
    var s' := Finalized(s, tid);
    forall t | t in s'.workers ensures WorkerAgrees(s'.store[s'.workers[t].run], s'.workers[t]) {
      assert WorkerAgrees(s.store[s.workers[t].run], s.workers[t]);
    }
  }

  lemma SameConfigSelf(run: Run)
    ensures SameConfig(run, run)
  {
  }

  lemma SettledAgrees(run: Run, control: Control, w: Worker)
    requires RunAgrees(run, control, true) && WorkerAgrees(run, w) && w.phase.Exited?
    ensures var run' := SettledRun(run, SettledOutcome(run, control, w.phase.exit), w.phase.exit == Raised);
      && RunAgrees(run', NO_CONTROL, false)
      && SameConfig(run, run')
      && run'.status == HowItEnds(run.status, w.phase.exit)
      && EndedBy(run, run', w.phase.exit)
  {
  }

  /** The end of a worker keeps the progress and records why it ended. */
  predicate EndedBy(before: Run, after: Run, exit: Exit) {
    && after.progress == before.progress
    && (after.status == Completed ==> after.reason == before.reason)
    && (after.status == Stopped ==> after.reason == UserStop)
    && (after.status == Paused ==> after.reason == UserPause)
    && (after.status == ErrorRecoverable ==>
          after.reason == if exit == Raised then WorkerCrash else RecoverableBackendError)
  }

  /** The status a worker's run ends in: a raised failure wins, then an accepted stop, then an accepted
      pause, and only an undisturbed worker completes. */
  function HowItEnds(status: Status, exit: Exit): Status {
    if exit == Raised then ErrorRecoverable
    else if status == Stopping then Stopped
    else if status == Pausing then Paused
    else if exit == Aborted then ErrorRecoverable
    else Completed
  }

  lemma InvApply(s: State, step: Step)
    requires Inv(s)
    ensures Inv(Apply(s, step))
  {
    hide Inv, ScheduleOrder, WithinBounds, Commanded, Ticked, ClosePaused, Loaded, Computed, Saved, Observed, Leaving,
      Finalized;
    if Enabled(s, step) {
      match step
      case Create(id, run) => InvCreate(s, id, run);
      case Issue(id, command) => InvIssue(s, id, command);
      case Tick(order) => InvTick(s, order);
      case Close => InvClose(s);
      case Load(tid) => InvLoad(s, tid);
      case Compute(tid, progress, message, reason) => InvCompute(s, tid, progress, message, reason);
      case Save(tid) => InvSave(s, tid);
      case Observe(tid) => InvObserve(s, tid);
      case Leave(tid, exit) => InvLeave(s, tid, exit);
      case Finalize(tid) => InvFinalize(s, tid);
    }
  }

  /** Booting from any stored records, however the previous process died, establishes it. */
  lemma InvBooted(store: map<Id, Run>)
    requires forall id :: id in store ==> WithinBounds(store[id])
    requires forall id :: id in store && !Live(store[id].status) ==> FlagsAgree(store[id])
    ensures Inv(Booted(store))
  {
    var s := Booted(store);
    assert s.threads.Keys == {};
  }

  /** Every reachable state satisfies the invariant. */
  lemma {:induction false} InvExec(s: State, steps: seq<Step>)
    requires Inv(s)
    ensures Inv(Exec(s, steps))
    decreases |steps|
  {
    if steps != [] {
      InvExec(s, steps[..|steps| - 1]);
      InvApply(Exec(s, steps[..|steps| - 1]), steps[|steps| - 1]);
    }
  }

  /** The claims of the invariant that a caller can observe, in one place. */
  lemma ReachableStates(store: map<Id, Run>, steps: seq<Step>)
    requires forall id :: id in store ==> WithinBounds(store[id])
    requires forall id :: id in store && !Live(store[id].status) ==> FlagsAgree(store[id])
    ensures var s := Exec(Booted(store), steps);
      && (forall id :: id in s.store ==> (Live(s.store[id].status) <==> id in s.threads))
      && s.threads.Keys <= s.store.Keys
      && (forall a, b :: a in s.workers && b in s.workers && s.workers[a].run == s.workers[b].run ==> a == b)
      && (forall resource: Resource :: Usage(s.store, s.threads.Keys, resource) <= 100)
  {
    InvBooted(store);
    InvExec(Booted(store), steps);
  }

  /** Restarting the scheduler is safe exactly when no worker is registered. */
  lemma RestartIsSafeIffNoWorker(s: State)
    requires Inv(s)
    ensures Inv(Restarted(s)) <==> s.threads == map[]
  {
    if s.threads != map[] {
      var id :| id in s.threads;
      assert Restarted(s).store[id].status == ErrorRecoverable;
    } else {
      CapacityKept(s, Restarted(s));
    }
  }

  /** After a boot nothing runs and nothing starts by itself: every run that was waiting or active needs a resume,
      and no run lost anything else. */
  lemma NothingStartsAfterBoot(store: map<Id, Run>, order: seq<Id>, id: Id)
    requires id in store
    ensures var s := Booted(store);
      && s.threads == map[] && s.controls == map[] && Ticked(s, order) == s && id in s.store
      && (if store[id].status in {Draft, Paused, Stopped, Completed, ErrorRecoverable} then s.store[id] == store[id]
          else
            && s.store[id].status == ErrorRecoverable && s.store[id].paused && s.store[id].reason == DaemonRestart
            && s.store[id].progress == store[id].progress && SameConfig(s.store[id], store[id]))
  {
    NoneEligible(Booted(store), order);
  }

  lemma {:induction false} NoneEligible(s: State, order: seq<Id>)
    requires s.threads.Keys <= s.store.Keys && forall id :: id in s.store ==> s.store[id].status != Queued
    ensures Ticked(s, order) == s
    decreases |order|
  {
    if order != [] {
      assert Admitted(s, order[0]) == s;
      NoneEligible(s, order[1..]);
    }
  }

  /** A shutdown asks exactly the live training runs to pause, and tells every live worker so. */
  lemma CloseAsksTheLive(s: State, id: Id)
    requires Inv(s) && id in s.store
    ensures var s' := ClosePaused(s);
      && s'.threads == s.threads && s'.workers == s.workers && id in s'.store
      && (id in s.threads ==> id in s'.controls && s'.controls[id].pause)
      && (if s.store[id].status == Training then s'.store[id].status == Pausing && s'.store[id].paused
          else s'.store[id] == s.store[id])
  {
    assert RunAgrees(s.store[id], SetDefault(s.controls, id), id in s.threads);
  }

  // ---------------------------------------------------------------- what a worker does

  /** A worker that saves what it loaded changes nothing. */
  lemma LoadThenSave(s: State, tid: Tid)
    requires Enabled(s, Load(tid))
    ensures Saved(Loaded(s, tid), tid).store == s.store && Enabled(Loaded(s, tid), Save(tid))
    ensures Loaded(s, tid).workers[tid].phase == Looping
  {
    var s' := Saved(Loaded(s, tid), tid);
    assert s'.store[s.workers[tid].run] == s.store[s.workers[tid].run];
  }

  /** What it computes reaches the store with its next save, and the control plane's fields stay. */
  lemma ComputeThenSave(s: State, tid: Tid, progress: Progress, message: Message, reason: Reason)
    requires Enabled(s, Compute(tid, progress, message, reason)) && s.workers[tid].run in s.store
    ensures var id := s.workers[tid].run;
      var before, after := s.store[id], Saved(Computed(s, tid, progress, message, reason), tid).store[id];
      && after.progress == progress && after.reason == reason
      && after.message == (if before.status in {Pausing, Stopping} then before.message else message)
      && after.status == before.status && after.paused == before.paused
      && after.stopRequested == before.stopRequested
    ensures Computed(s, tid, progress, message, reason).store == s.store
  {
  }

  /** A worker that looks at its flags leaves exactly when its run is being halted, for the reason it is. */
  lemma ObserveIff(s: State, tid: Tid)
    requires Inv(s) && Enabled(s, Observe(tid))
    ensures var status, phase := s.store[s.workers[tid].run].status, Observed(s, tid).workers[tid].phase;
      && (phase == Exited(Returned(StopOutcome)) <==> status == Stopping)
      && (phase == Exited(Returned(PauseOutcome)) <==> status == Pausing)
      && (status == Training <==> phase == Looping)
  {
    WorkerInAgreement(s, tid);
  }

  // ---------------------------------------------------------------- worker saves

  /** A worker save never changes what the control plane decided, for any run, in any state. */
  lemma SaveKeepsControlPlane(s: State, tid: Tid, id: Id)
    requires Enabled(s, Save(tid)) && id in s.store
    ensures var before, after := s.store[id], Apply(s, Save(tid)).store[id];
      && after.status == before.status
      && after.paused == before.paused
      && after.stopRequested == before.stopRequested
      && (before.status in {Pausing, Stopping} ==> after.message == before.message)
      && (id == s.workers[tid].run ==>
            var copy := s.workers[tid].copy.value;
            && after.progress == copy.progress && after.reason == copy.reason
            && (before.status !in {Pausing, Stopping} ==> after.message == copy.message)
            && SameConfig(after, copy))
      && (id != s.workers[tid].run ==> after == before)
    ensures Apply(s, Save(tid)).controls == s.controls
  {
  }

  /** What no step takes away from a run, short of the end of its own worker: its worker, an accepted halt
      of that worker, and completion. */
  predicate Kept(s: State, s': State, id: Id)
    requires id in s.store
  {
    && id in s'.store
    && (id in s.threads ==> id in s'.threads && s'.threads[id] == s.threads[id])
    && (s.store[id].status == Completed && id !in s.threads ==> s'.store[id].status == Completed)
    && (id in s.threads && s.store[id].status == Pausing ==> s'.store[id].status in {Pausing, Stopping})
    && (id in s.threads && s.store[id].status == Stopping ==> s'.store[id].status == Stopping)
  }

  lemma IssueFrame(s: State, other: Id, command: Command, id: Id)
    requires id in s.store && RunsAgree(s)
    ensures var s' := Commanded(s, other, command).0;
      Kept(s, s', id) && s'.store[id].progress == s.store[id].progress
  {
    if other == id { assert RunAgrees(s.store[id], SetDefault(s.controls, id), id in s.threads); }
  }

  lemma FinalizeFrame(s: State, tid: Tid, id: Id)
    requires tid in s.workers && s.workers[tid].phase.Exited? && id in s.store
    ensures var s' := Finalized(s, tid);
      && id in s'.store && s'.store[id].progress == s.store[id].progress
      && (s.workers[tid].run != id ==> Kept(s, s', id))
  {
  }

  lemma StepFrame(s: State, step: Step, id: Id)
    requires Inv(s) && id in s.store
    ensures !(step.Finalize? && step.tid in s.workers && s.workers[step.tid].run == id) ==> Kept(s, Apply(s, step), id)
    ensures !(step.Save? && step.tid in s.workers && s.workers[step.tid].run == id) ==>
      id in Apply(s, step).store && Apply(s, step).store[id].progress == s.store[id].progress
  {
    hide Commanded, Ticked, ClosePaused, Finalized, ScheduleOrder, WithinBounds, RunsAgree, OneWorkerPerRun,
      WorkersAgree, WithinCapacity;
    if Enabled(s, step) {
      match step
      case Issue(other, command) => IssueFrame(s, other, command, id);
      case Tick(order) => TickFrame(s, order, id);
      case Close => CloseRun(s, id);
      case Finalize(tid) => FinalizeFrame(s, tid, id);
      case _ =>
    }
  }

  /** And no command, tick or shutdown request loses progress that a worker has saved. */
  lemma ProgressIsKept(s: State, step: Step, id: Id)
    requires Inv(s) && id in s.store
    requires !(step.Save? && step.tid in s.workers && s.workers[step.tid].run == id)
    ensures id in Apply(s, step).store && Apply(s, step).store[id].progress == s.store[id].progress
  {
    StepFrame(s, step, id);
  }

  lemma {:induction false} TickFrame(s: State, order: seq<Id>, id: Id)
    requires s.threads.Keys <= s.store.Keys && id in s.store
    ensures var s' := Ticked(s, order);
      && id in s'.store
      && s'.store[id].progress == s.store[id].progress
      && SameConfig(s'.store[id], s.store[id])
      && (!Eligible(s, id) ==> s'.store[id] == s.store[id])
      && s'.controls.Keys >= s.controls.Keys
      && (id in s.controls ==> s'.controls[id] == s.controls[id])
      && (forall live :: live in s.threads ==> live in s'.threads && s'.threads[live] == s.threads[live])
      && (id !in s.threads && id in s'.threads ==> s'.store[id].status == Training)
    decreases |order|
  {
    if order != [] {
      TickFrame(Admitted(s, order[0]), order[1..], id);
    }
  }

  // ---------------------------------------------------------------- halting

  /** A stop was accepted while the worker `tid` of run `id` was live, and it has not ended yet. */
  predicate StopPending(s: State, id: Id, tid: Tid) {
    id in s.threads && s.threads[id] == tid && id in s.store && s.store[id].status == Stopping
  }

  /** The same for a pause; it may still be overtaken by a stop. */
  predicate HaltPending(s: State, id: Id, tid: Tid) {
    id in s.threads && s.threads[id] == tid && id in s.store && s.store[id].status in {Pausing, Stopping}
  }

  lemma AcceptedStopIsPending(s: State, id: Id)
    requires Inv(s) && id in s.threads
    ensures var (s', reply) := Commanded(s, id, Stop);
      reply.Accepted? && StopPending(s', id, s.threads[id])
  {
  }

  lemma AcceptedPauseIsPending(s: State, id: Id)
    requires Inv(s) && id in s.threads
    ensures var (s', reply) := Commanded(s, id, Pause);
      if s.store[id].status == Stopping then reply == WrongState(Stopping) && s' == s
      else reply.Accepted? && HaltPending(s', id, s.threads[id])
  {
  }

  lemma StepKeepsHalt(s: State, step: Step, id: Id, tid: Tid)
    requires Inv(s) && HaltPending(s, id, tid) && step != Finalize(tid)
    ensures HaltPending(Apply(s, step), id, tid)
    ensures StopPending(s, id, tid) ==> StopPending(Apply(s, step), id, tid)
  {
    hide Apply, RunsAgree, WorkersAgree, WithinCapacity;
    StepFrame(s, step, id);
  }

  /** How a worker's run ends, from what its thread did and what the control plane had decided. */
  lemma FinalStatus(s: State, tid: Tid)
    requires Inv(s) && Enabled(s, Finalize(tid))
    ensures var id := s.workers[tid].run;
      var s' := Apply(s, Finalize(tid));
      && id !in s'.threads && tid !in s'.workers && id !in s'.controls
      && id in s'.store && FlagsAgree(s'.store[id])
      && s'.store[id].status == HowItEnds(s.store[id].status, s.workers[tid].phase.exit)
      && EndedBy(s.store[id], s'.store[id], s.workers[tid].phase.exit)
  {
    hide Inv, Finalized, SettledRun, SettledOutcome, RunAgrees, WorkerAgrees, HowItEnds, EndedBy, SetDefault;
    WorkerInAgreement(s, tid);
    var id := s.workers[tid].run;
    SettledAgrees(s.store[id], SetDefault(s.controls, id), s.workers[tid]);
    FinalizedShape(s, tid);
    FinalizedRun(s, tid, id);
    FinalizedGone(s, tid);
    AgreesFlags(Finalized(s, tid).store[id], NO_CONTROL, false);
  }

  lemma AgreesFlags(run: Run, control: Control, live: bool)
    requires RunAgrees(run, control, live)
    ensures FlagsAgree(run)
  {
  }

  lemma FinalizedGone(s: State, tid: Tid)
    requires tid in s.workers && s.workers[tid].phase.Exited?
    ensures var s', id := Finalized(s, tid), s.workers[tid].run;
      tid !in s'.workers && id !in s'.controls && id !in s'.threads
  {
    hide SettledRun, SettledOutcome;
  }

  /** Where a halted run can be after any further steps: still halting under the same worker, or past
      the step that ended that worker, at which point it was stopped, paused or failed. */
  ghost predicate HaltHonoured(s: State, steps: seq<Step>, id: Id, tid: Tid, stop: bool) {
    var now := Exec(s, steps);
    || (if stop then StopPending(now, id, tid) else HaltPending(now, id, tid))
    || exists k :: 0 <= k < |steps| && steps[k] == Finalize(tid) && EndsHalted(Exec(s, steps[..k]), id, tid, stop)
  }

  ghost predicate EndsHalted(s: State, id: Id, tid: Tid, stop: bool) {
    && Enabled(s, Finalize(tid))
    && s.workers[tid].run == id
    && var s' := Apply(s, Finalize(tid));
      id in s'.store && id !in s'.threads &&
      if s.workers[tid].phase.exit == Raised then s'.store[id].status == ErrorRecoverable
      else if stop then s'.store[id].status == Stopped
      else s'.store[id].status in {Paused, Stopped}
  }

  lemma HaltEnds(s: State, id: Id, tid: Tid, stop: bool)
    requires Inv(s) && Enabled(s, Finalize(tid))
    requires if stop then StopPending(s, id, tid) else HaltPending(s, id, tid)
    ensures EndsHalted(s, id, tid, stop)
  {
    hide Apply, Inv;
    WorkerOfRun(s, id);
    FinalStatus(s, tid);
  }

  lemma WorkerOfRun(s: State, id: Id)
    requires Inv(s) && id in s.threads
    ensures s.threads[id] in s.workers && s.workers[s.threads[id]].run == id
  {
  }

  /** No command, tick, save or shutdown undoes an accepted stop or pause of a live worker: whatever
      happens, that worker's run ends stopped (paused or stopped), or error_recoverable if it failed. */
  lemma {:induction false} HaltIsHonoured(s: State, steps: seq<Step>, id: Id, tid: Tid, stop: bool)
    requires Inv(s)
    requires if stop then StopPending(s, id, tid) else HaltPending(s, id, tid)
    ensures HaltHonoured(s, steps, id, tid, stop)
    decreases |steps|
  {
    hide Inv, EndsHalted;
    if steps != [] {
      var init, last := steps[..|steps| - 1], steps[|steps| - 1];
      HaltIsHonoured(s, init, id, tid, stop);
      InvExec(s, init);
      HaltStep(s, init, last, id, tid, stop);
      assert init + [last] == steps;
    }
  }

  lemma HaltStep(s: State, init: seq<Step>, last: Step, id: Id, tid: Tid, stop: bool)
    requires Inv(Exec(s, init)) && HaltHonoured(s, init, id, tid, stop)
    ensures HaltHonoured(s, init + [last], id, tid, stop)
  {
    hide Inv, EndsHalted, Apply, Enabled;
    var now, steps := Exec(s, init), init + [last];
    assert steps[..|init|] == init;
    if !(if stop then StopPending(now, id, tid) else HaltPending(now, id, tid)) {
      var k :| 0 <= k < |init| && init[k] == Finalize(tid) && EndsHalted(Exec(s, init[..k]), id, tid, stop);
      assert steps[..k] == init[..k] && steps[k] == init[k];
    } else if last != Finalize(tid) {
      StepKeepsHalt(now, last, id, tid);
    } else if Enabled(now, last) {
      HaltEnds(now, id, tid, stop);
      assert steps[|init|] == Finalize(tid);
    } else {
      DisabledStep(now, last);
    }
  }

  lemma DisabledStep(s: State, step: Step)
    requires !Enabled(s, step)
    ensures Apply(s, step) == s
  {
  }

  // ---------------------------------------------------------------- commands

  /** What a command is for, and that a refused one has no effect. A stop is refused only by a completed
      run, a pause only by a run that is neither waiting nor running, and only a halted or failed run
      resumes. */
  lemma CommandsReachTheirGoal(s: State, id: Id, command: Command)
    requires Inv(s)
    ensures var (s', reply) := Commanded(s, id, command);
      && (!reply.Accepted? ==> s' == s)
      && (reply == NotFound <==> id !in s.store)
      && (id in s.store ==>
            var before, after := s.store[id].status, s'.store[id].status;
            match command
            case Start => (reply.Accepted? <==> before in {Draft, Queued, Training})
                          && (reply.Accepted? ==> after == if before == Training then Training else Queued)
            case Resume => (reply.Accepted? <==> before in {Paused, Stopped, ErrorRecoverable})
                           && (reply.Accepted? ==> Eligible(s', id) && s'.controls[id] == NO_CONTROL)
            case Pause => (reply.Accepted? <==> before in {Queued, Training, Pausing, Paused})
                          && (reply.Accepted? ==> after == if id in s.threads then Pausing else Paused)
            case Stop => (reply.Accepted? <==> before != Completed)
                         && (reply.Accepted? ==> after == if id in s.threads then Stopping else Stopped)
            case Unknown => reply == UnknownCommand)
  {
    if id in s.store {
      assert RunAgrees(s.store[id], SetDefault(s.controls, id), id in s.threads);
    }
  }

  lemma StepKeepsCompleted(s: State, step: Step, id: Id)
    requires Inv(s) && id in s.store && s.store[id].status == Completed
    ensures id in Apply(s, step).store && Apply(s, step).store[id].status == Completed
  {
    hide Apply, WorkersAgree, WithinCapacity;
    assert RunAgrees(s.store[id], SetDefault(s.controls, id), id in s.threads);
    StepFrame(s, step, id);
  }

  /** A completed run stays completed: nothing requeues, stops or fails it any more. */
  lemma {:induction false} CompletedIsForever(s: State, steps: seq<Step>, id: Id)
    requires Inv(s) && id in s.store && s.store[id].status == Completed
    ensures var s' := Exec(s, steps); id in s'.store && s'.store[id].status == Completed
    decreases |steps|
  {
    if steps != [] {
      var init := steps[..|steps| - 1];
      CompletedIsForever(s, init, id);
      InvExec(s, init);
      StepKeepsCompleted(Exec(s, init), steps[|steps| - 1], id);
    }
  }

  // ---------------------------------------------------------------- scheduling

  /** Admission only gets harder while a tick runs. */
  lemma AdmissionShrinks(s: State, id: Id, run: Run)
    requires Inv(s) && CanStart(Admitted(s, id), run)
    ensures CanStart(s, run)
  {
    if Admitted(s, id) != s {
      var s' := Admitted(s, id);
      assert s'.threads.Keys == s.threads.Keys + {id};
      forall resource: Resource
        ensures Usage(s.store, s.threads.Keys, resource) + Demand(run, resource) <= CAP
      {
        UsageFrame(s.store, s'.store, s.threads.Keys, resource);
        UsageMonotone(s'.store, s.threads.Keys, s'.threads.Keys, resource);
      }
      forall live | live in s.threads ensures s.store[live].status !in {Pausing, Stopping} {
        assert s'.store[live] == s.store[live];
      }
    }
  }

  lemma {:induction false} TickShrinks(s: State, order: seq<Id>, run: Run)
    requires Inv(s) && CanStart(Ticked(s, order), run)
    ensures CanStart(s, run)
    decreases |order|
  {
    if order != [] {
      InvTick(s, [order[0]]);
      assert Ticked(s, [order[0]]) == Ticked(Admitted(s, order[0]), []);
      TickShrinks(Admitted(s, order[0]), order[1..], run);
      AdmissionShrinks(s, order[0], run);
    }
  }

  lemma {:induction false} TickSaturatesOver(s: State, order: seq<Id>, id: Id)
    requires Inv(s) && id in order && id in s.store && Eligible(Ticked(s, order), id)
    ensures !CanStart(Ticked(s, order), s.store[id]) && Ticked(s, order).store[id] == s.store[id]
    decreases |order|
  {
    var next, rest := order[0], order[1..];
    var s1 := Admitted(s, next);
    InvTick(s, [next]);
    assert Ticked(s, [next]) == Ticked(s1, []);
    TickFrame(s, order, id);
    if Eligible(s, id) {
      if id == next {
        if CanStart(s, s.store[id]) {
          TickFrame(s1, rest, id);
        } else if CanStart(Ticked(s, order), s.store[id]) {
          TickShrinks(s, order, s.store[id]);
        }
        TickUntouched(s, order, id);
      } else {
        TickSaturatesOver(s1, rest, id);
      }
    }
  }

  /** A run that a tick does not start keeps its whole record. */
  lemma {:induction false} TickUntouched(s: State, order: seq<Id>, id: Id)
    requires s.threads.Keys <= s.store.Keys && id in s.store && id !in Ticked(s, order).threads
    ensures id in Ticked(s, order).store && Ticked(s, order).store[id] == s.store[id]
    decreases |order|
  {
    if order != [] {
      if Admitted(s, order[0]) != s && order[0] == id {
        TickFrame(Admitted(s, order[0]), order[1..], id);
      }
      TickUntouched(Admitted(s, order[0]), order[1..], id);
    }
  }

  lemma {:induction false} TickNoNewRuns(s: State, order: seq<Id>)
    requires s.threads.Keys <= s.store.Keys
    ensures Ticked(s, order).store.Keys == s.store.Keys
    decreases |order|
  {
    if order != [] { TickNoNewRuns(Admitted(s, order[0]), order[1..]); }
  }

  /** A tick is work-conserving: no queued run it leaves behind could have been admitted. */
  lemma TickSaturates(s: State, order: seq<Id>, id: Id)
    requires Inv(s) && ScheduleOrder(s, order)
    requires Eligible(Ticked(s, order), id)
    ensures !CanStart(Ticked(s, order), Ticked(s, order).store[id])
  {
    TickNoNewRuns(s, order);
    TickSaturatesOver(s, order, id);
  }

  lemma {:induction false} TickReaches(s: State, order: seq<Id>, i: nat)
    requires Inv(s) && i < |order| && Eligible(s, order[i]) && CanStart(s, s.store[order[i]])
    requires forall j :: 0 <= j < i ==> !Eligible(s, order[j])
    ensures order[i] in Ticked(s, order).threads && Ticked(s, order).store[order[i]].status == Training
    decreases i
  {
    if i > 0 {
      assert Admitted(s, order[0]) == s;
      TickReaches(s, order[1..], i - 1);
    } else {
      TickFrame(Admitted(s, order[0]), order[1..], order[0]);
    }
  }

  /** A run alone always fits, by the bounds of its demand. */
  lemma IdleFits(s: State, id: Id)
    requires Inv(s) && s.threads == map[] && id in s.store
    ensures CanStart(s, s.store[id])
  {
    assert RunAgrees(s.store[id], SetDefault(s.controls, id), id in s.threads);
    assert s.threads.Keys == {};
  }

  /** With no live worker, the eligible run that comes first by priority and age is started. */
  lemma IdleTickStartsFirst(s: State, order: seq<Id>, i: nat)
    requires Inv(s) && ScheduleOrder(s, order) && s.threads == map[]
    requires i < |order| && Eligible(s, order[i]) && forall j :: 0 <= j < i ==> !Eligible(s, order[j])
    ensures order[i] in Ticked(s, order).threads
    ensures Ticked(s, order).store[order[i]].status == Training
    ensures forall id :: Eligible(s, id) ==>
      var started, other := s.store[order[i]], s.store[id];
      && (other.priority == High ==> started.priority == High)
      && (started.priority == Low ==> other.priority == Low)
      && (started.priority == other.priority ==> started.createdAt <= other.createdAt)
  {
    hide Inv, Ticked, CanStart;
    IdleFits(s, order[i]);
    TickReaches(s, order, i);
    forall id | Eligible(s, id) ensures NotAfter(s.store[order[i]], s.store[id]) {
      assert id in order;
      var j :| 0 <= j < |order| && order[j] == id;
    }
  }

  /** What a set of live runs uses, spelled out. */
  lemma UsageByRun(store: map<Id, Run>, ids: set<Id>, id: Id)
    requires ids <= store.Keys && id in store && id !in ids
    ensures forall resource: Resource :: Usage(store, {}, resource) == 0
    ensures Usage(store, ids + {id}, Gpu) == Usage(store, ids, Gpu) + store[id].gpu
    ensures Usage(store, ids + {id}, Ram) == Usage(store, ids, Ram) + store[id].ram
    ensures Usage(store, ids + {id}, Cpu) == Usage(store, ids, Cpu) + store[id].cpu
  {
    UsageInsert(store, ids, id, Gpu);
    UsageInsert(store, ids, id, Ram);
    UsageInsert(store, ids, id, Cpu);
  }

  /** While any live run is on its way out, a tick starts nothing and changes nothing. */
  lemma {:induction false} TickWaitsForSettling(s: State, order: seq<Id>, leaving: Id)
    requires s.threads.Keys <= s.store.Keys
    requires leaving in s.threads && s.store[leaving].status in {Pausing, Stopping}
    ensures Ticked(s, order) == s
    decreases |order|
  {
    if order != [] {
      assert Admitted(s, order[0]) == s;
      TickWaitsForSettling(s, order[1..], leaving);
    }
  }

  /** A tick registers only listed runs. */
  lemma {:induction false} TickOnlyListed(s: State, order: seq<Id>, id: Id)
    requires s.threads.Keys <= s.store.Keys && id !in order && id !in s.threads
    ensures id !in Ticked(s, order).threads
    decreases |order|
  {
    if order != [] { TickOnlyListed(Admitted(s, order[0]), order[1..], id); }
  }

  /** And when every live run is training, the first eligible one is started exactly when its demand fits beside
      theirs, within a hundred of each resource. */
  lemma FirstEligibleStartsIff(s: State, order: seq<Id>, i: nat)
    requires Inv(s) && ScheduleOrder(s, order) && forall id :: id in s.threads ==> s.store[id].status == Training
    requires i < |order| && Eligible(s, order[i]) && forall j :: 0 <= j < i ==> !Eligible(s, order[j])
    ensures var run, live := s.store[order[i]], s.threads.Keys;
      order[i] in Ticked(s, order).threads <==>
        && Usage(s.store, live, Gpu) + run.gpu <= 100
        && Usage(s.store, live, Ram) + run.ram <= 100
        && Usage(s.store, live, Cpu) + run.cpu <= 100
  {
    hide Inv, Ticked;
    FitsIff(s, s.store[order[i]]);
    if CanStart(s, s.store[order[i]]) {
      TickReaches(s, order, i);
    } else {
      InvGivesStored(s);
      TickPasses(s, order, i);
    }
  }

  lemma InvGivesStored(s: State)
    requires Inv(s)
    ensures s.threads.Keys <= s.store.Keys
  {
  }

  lemma FitsIff(s: State, run: Run)
    requires Inv(s) && forall id :: id in s.threads ==> s.store[id].status == Training
    ensures s.threads.Keys <= s.store.Keys
    ensures CanStart(s, run) <==>
      && Usage(s.store, s.threads.Keys, Gpu) + run.gpu <= 100
      && Usage(s.store, s.threads.Keys, Ram) + run.ram <= 100
      && Usage(s.store, s.threads.Keys, Cpu) + run.cpu <= 100
  {
    hide Inv, Usage;
    InvGivesStored(s);
    if CanStart(s, run) {
      assert Usage(s.store, s.threads.Keys, Gpu) + Demand(run, Gpu) <= CAP;
      assert Usage(s.store, s.threads.Keys, Ram) + Demand(run, Ram) <= CAP;
      assert Usage(s.store, s.threads.Keys, Cpu) + Demand(run, Cpu) <= CAP;
    } else {
      var resource: Resource :| Usage(s.store, s.threads.Keys, resource) + Demand(run, resource) > CAP;
      match resource case Gpu => case Ram => case Cpu =>
    }
  }

  /** The first eligible run of an order is not started if it does not fit. */
  lemma {:induction false} TickPasses(s: State, order: seq<Id>, i: nat)
    requires s.threads.Keys <= s.store.Keys && i < |order| && order[i] in s.store && order[i] !in s.threads
    requires !CanStart(s, s.store[order[i]])
    requires forall j :: 0 <= j < i ==> !Eligible(s, order[j])
    requires forall j, k :: 0 <= j < k < |order| ==> order[j] != order[k]
    ensures order[i] !in Ticked(s, order).threads
    decreases i
  {
    if i > 0 {
      assert Admitted(s, order[0]) == s;
      TickPasses(s, order[1..], i - 1);
    } else {
      assert Admitted(s, order[0]) == s;
      TickOnlyListed(s, order[1..], order[0]);
    }
  }

  /** Every worker that a tick starts was queued, unhalted and without a worker before it. */
  lemma TickStartsOnlyEligible(s: State, order: seq<Id>, id: Id)
    requires Inv(s) && id in Ticked(s, order).threads && id !in s.threads
    ensures Eligible(s, id)
  {
    TickNoNewRuns(s, order);
    InvTick(s, order);
    TickFrame(s, order, id);
  }
}
