/** The run lifecycle as a state machine.

Control commands, scheduler ticks and worker threads share the stored run records, the thread
registry and the control flags. Every block that the runtime executes under its lock is one step
here; a worker's own computation only touches the private copy of the record that it loaded. */
module Lifecycle {
  import opened Options

  type Id = nat
  type Tid = nat

  const CAP: nat := 100

  datatype Status =
    | Draft | Queued | Training | Pausing | Stopping
    | Paused | Stopped | Completed | ErrorRecoverable

  datatype Priority = High | Normal | Low

  datatype Resource = Gpu | Ram | Cpu

  datatype Message =
    | NoMessage | WaitingForSlot | ResumeQueued | PauseRequested | PausedNow | StopRequested
    | StoppedNow | PreparingBackend | ClosingPause | RestartedWhileRunning
    | WorkerFailed | StopReleased | PauseReleased | FromWorker(note: nat)

  datatype Reason =
    | NoReason | WorkerCrash | RecoverableBackendError | UserStop | UserPause | DaemonRestart
    | GivenByWorker(code: nat)

  /** Everything only the worker computes: step, loss, scores, metrics, checkpoint description. */
  datatype Progress = Progress(step: nat, loss: real, bestScore: real, bestStep: nat)

  datatype Run = Run(
    status: Status, paused: bool, stopRequested: bool,
    message: Message, reason: Reason, progress: Progress,
    priority: Priority, createdAt: real, gpu: nat, ram: nat, cpu: nat)

  datatype Control = Control(pause: bool, stop: bool)

  const NO_CONTROL := Control(false, false)

  datatype Outcome = PauseOutcome | StopOutcome | CompleteOutcome | ErrorOutcome

  /** How the body of a worker thread ended: by returning an outcome, by raising an ordinary
      exception, or by an exception that is not caught as a failure (interpreter exit). */
  datatype Exit = Returned(outcome: Outcome) | Raised | Aborted

  datatype Phase = Loading | Looping | Exited(exit: Exit)

  datatype Worker = Worker(run: Id, copy: Option<Run>, phase: Phase)

  datatype State = State(
    store: map<Id, Run>,
    threads: map<Id, Tid>,
    controls: map<Id, Control>,
    workers: map<Tid, Worker>,
    nextTid: Tid)

  datatype Command = Start | Resume | Pause | Stop | Unknown

  datatype Reply = Accepted(run: Run) | NotFound | WrongState(status: Status) | UnknownCommand

  predicate Live(status: Status) {
    status in {Training, Pausing, Stopping}
  }

  // ---------------------------------------------------------------- resources

  function Demand(run: Run, resource: Resource): nat {
    match resource
    case Gpu => run.gpu
    case Ram => run.ram
    case Cpu => run.cpu
  }

  ghost function Usage(store: map<Id, Run>, ids: set<Id>, resource: Resource): nat
    requires ids <= store.Keys
  {
    if ids == {} then 0
    else
      var id :| id in ids;
      Demand(store[id], resource) + Usage(store, ids - {id}, resource)
  }

  /** Capacity and settling: no live worker is on its way out and every resource still fits. */
  ghost predicate CanStart(s: State, run: Run)
    requires s.threads.Keys <= s.store.Keys
  {
    && (forall id :: id in s.threads ==> s.store[id].status !in {Pausing, Stopping})
    && (forall resource: Resource ::
          Usage(s.store, s.threads.Keys, resource) + Demand(run, resource) <= CAP)
  }

  predicate Eligible(s: State, id: Id) {
    && id in s.store
    && s.store[id].status == Queued
    && !s.store[id].paused
    && !s.store[id].stopRequested
    && id !in s.threads
  }

  // ---------------------------------------------------------------- commands

  function SetDefault(controls: map<Id, Control>, id: Id): Control {
    if id in controls then controls[id] else NO_CONTROL
  }

  function Commanded(s: State, id: Id, command: Command): (State, Reply) {
    if id !in s.store then (s, NotFound) else
    var run := s.store[id];
    match command
    case Start =>
      if run.status in {Queued, Training} then (s, Accepted(run))
      else if run.status != Draft then (s, WrongState(run.status))
      else Enqueued(s, id, WaitingForSlot)
    case Resume =>
      if run.status !in {Paused, Stopped, ErrorRecoverable} then (s, WrongState(run.status))
      else Enqueued(s, id, ResumeQueued)
    case Pause =>
      if run.status in {Pausing, Paused} then (s, Accepted(run))
      else if run.status !in {Queued, Training} then (s, WrongState(run.status))
      else
        var alive := id in s.threads;
        var run' := run.(paused := true, status := if alive then Pausing else Paused,
                         message := if alive then PauseRequested else PausedNow);
        (s.(store := s.store[id := run'],
            controls := s.controls[id := SetDefault(s.controls, id).(pause := true)]), Accepted(run'))
    case Stop =>
      if run.status in {Stopping, Stopped} then (s, Accepted(run))
      else if run.status !in {Draft, Queued, Training, Pausing, Paused, ErrorRecoverable} then
        (s, WrongState(run.status))
      else
        var alive := id in s.threads;
        var run' := run.(stopRequested := true, paused := true,
                         status := if alive then Stopping else Stopped,
                         message := if alive then StopRequested else StoppedNow);
        (s.(store := s.store[id := run'],
            controls := s.controls[id := SetDefault(s.controls, id).(stop := true)]), Accepted(run'))
    case Unknown => (s, UnknownCommand)
  }

  function Enqueued(s: State, id: Id, message: Message): (State, Reply)
    requires id in s.store
  {
    var run := s.store[id].(stopRequested := false, paused := false, status := Queued, message := message);
    (s.(store := s.store[id := run], controls := s.controls[id := NO_CONTROL]), Accepted(run))
  }

  // ---------------------------------------------------------------- scheduler

  function Rank(priority: Priority): nat {
    match priority
    case High => 0
    case Normal => 1
    case Low => 2
  }

  predicate NotAfter(a: Run, b: Run) {
    Rank(a.priority) < Rank(b.priority) || (a.priority == b.priority && a.createdAt <= b.createdAt)
  }

  /** The stored runs listed once each in (priority, creation time) order. */
  ghost predicate ScheduleOrder(s: State, order: seq<Id>) {
    && (forall i, j :: 0 <= i < j < |order| ==> order[i] != order[j])
    && (forall id :: id in order <==> id in s.store)
    && (forall i, j :: 0 <= i < j < |order| ==> NotAfter(s.store[order[i]], s.store[order[j]]))
  }

  function Launched(s: State, id: Id): State
    requires id in s.store
  {
    s.(store := s.store[id := s.store[id].(status := Training, message := PreparingBackend)],
       controls := s.controls[id := SetDefault(s.controls, id)],
       threads := s.threads[id := s.nextTid],
       workers := s.workers[s.nextTid := Worker(id, None, Loading)],
       nextTid := s.nextTid + 1)
  }

  ghost function Admitted(s: State, id: Id): State
    requires s.threads.Keys <= s.store.Keys
  {
    if Eligible(s, id) && CanStart(s, s.store[id]) then Launched(s, id) else s
  }

  ghost function Ticked(s: State, order: seq<Id>): (s': State)
    requires s.threads.Keys <= s.store.Keys
    ensures s'.threads.Keys <= s'.store.Keys
    decreases |order|
  {
    if order == [] then s else Ticked(Admitted(s, order[0]), order[1..])
  }

  // ---------------------------------------------------------------- workers

  function Loaded(s: State, tid: Tid): State
    requires tid in s.workers && s.workers[tid].run in s.store
  {
    var w := s.workers[tid];
    s.(workers := s.workers[tid := w.(copy := Some(s.store[w.run]), phase := Looping)])
  }

  function Computed(s: State, tid: Tid, progress: Progress, message: Message, reason: Reason): State
    requires tid in s.workers && s.workers[tid].copy.Some?
  {
    var w := s.workers[tid];
    var copy := w.copy.value.(progress := progress, message := message, reason := reason);
    s.(workers := s.workers[tid := w.(copy := Some(copy))])
  }

  /** The record written by a worker save: the control plane's fields win. */
  function Merged(copy: Run, current: Run): Run {
    var synced := copy.(status := current.status, paused := current.paused,
                        stopRequested := current.stopRequested);
    if current.status in {Pausing, Stopping} then synced.(message := current.message) else synced
  }

  function Saved(s: State, tid: Tid): State
    requires tid in s.workers && s.workers[tid].copy.Some?
  {
    var w := s.workers[tid];
    var run := if w.run in s.store then Merged(w.copy.value, s.store[w.run]) else w.copy.value;
    s.(store := s.store[w.run := run], workers := s.workers[tid := w.(copy := Some(run))])
  }

  /** The read of the control flags at the head of the worker loop. */
  function Observed(s: State, tid: Tid): State
    requires tid in s.workers
  {
    var w := s.workers[tid];
    var control := SetDefault(s.controls, w.run);
    var phase := if control.stop then Exited(Returned(StopOutcome))
                 else if control.pause then Exited(Returned(PauseOutcome))
                 else w.phase;
    s.(workers := s.workers[tid := w.(phase := phase)])
  }

  function Leaving(s: State, tid: Tid, exit: Exit): State
    requires tid in s.workers
  {
    s.(workers := s.workers[tid := s.workers[tid].(phase := Exited(exit))])
  }

  function SettledOutcome(run: Run, control: Control, exit: Exit): Outcome {
    if exit == Raised then ErrorOutcome
    else if run.status == Stopping || control.stop then StopOutcome
    else if run.status == Pausing || control.pause then PauseOutcome
    else if exit == Aborted then ErrorOutcome
    else exit.outcome
  }

  function SettledRun(run: Run, outcome: Outcome, crashed: bool): Run {
    match outcome
    case ErrorOutcome =>
      run.(status := ErrorRecoverable, paused := true, message := WorkerFailed,
           reason := if crashed then WorkerCrash else RecoverableBackendError)
    case StopOutcome =>
      run.(status := Stopped, stopRequested := true, paused := true, reason := UserStop, message := StopReleased)
    case PauseOutcome =>
      run.(status := Paused, stopRequested := false, paused := true, reason := UserPause, message := PauseReleased)
    case CompleteOutcome =>
      run.(status := Completed, stopRequested := false, paused := false)
  }

  function Finalized(s: State, tid: Tid): State
    requires tid in s.workers && s.workers[tid].phase.Exited?
  {
    var w := s.workers[tid];
    var exit := w.phase.exit;
    var store := if w.run !in s.store then s.store else
      var run := s.store[w.run];
      var outcome := SettledOutcome(run, SetDefault(s.controls, w.run), exit);
      s.store[w.run := SettledRun(run, outcome, exit == Raised)];
    s.(store := store, threads := s.threads - {w.run}, controls := s.controls - {w.run},
       workers := s.workers - {tid})
  }

  // ---------------------------------------------------------------- shutdown and boot

  function PauseForClose(run: Run): Run {
    if run.status == Training
    then run.(status := Pausing, paused := true, message := ClosingPause)
    else run
  }

  /** Every worker of `ids` is asked to pause. */
  function PausedFor(s: State, ids: set<Id>): State {
    s.(store := map id | id in s.store ::
         if id in ids then PauseForClose(s.store[id]) else s.store[id],
       controls := map id | id in s.controls.Keys + ids ::
         if id in ids then SetDefault(s.controls, id).(pause := true) else s.controls[id])
  }

  /** The part of `close` that runs under the lock. */
  function ClosePaused(s: State): State {
    PausedFor(s, s.threads.Keys)
  }

  /** The relabelling of `start` when no scheduler thread is alive. */
  function Restarted(s: State): State {
    s.(store := map id | id in s.store ::
      var run := s.store[id];
      if run.status in {Training, Queued, Pausing, Stopping}
      then run.(status := ErrorRecoverable, paused := true, reason := DaemonRestart,
                message := RestartedWhileRunning)
      else run)
  }

  function Booted(store: map<Id, Run>): State {
    Restarted(State(store, map[], map[], map[], 0))
  }

  // ---------------------------------------------------------------- steps and runs

  datatype Step =
    | Create(id: Id, run: Run)
    | Issue(id: Id, command: Command)
    | Tick(order: seq<Id>)
    | Close
    | Load(tid: Tid)
    | Compute(tid: Tid, progress: Progress, message: Message, reason: Reason)
    | Save(tid: Tid)
    | Observe(tid: Tid)
    | Leave(tid: Tid, exit: Exit)
    | Finalize(tid: Tid)

  /** The demand bounds that run creation clamps every request into, and a fresh record's flags. */
  predicate WithinBounds(run: Run) {
    10 <= run.cpu <= 100 && 10 <= run.ram <= 95 && run.gpu <= 100
  }

  ghost predicate Enabled(s: State, step: Step) {
    match step
    case Create(id, run) =>
      id !in s.store && WithinBounds(run) && run.status == Draft && !run.paused && !run.stopRequested
    case Issue(_, _) => true
    case Tick(order) => s.threads.Keys <= s.store.Keys && ScheduleOrder(s, order)
    case Close => true
    case Load(tid) => tid in s.workers && s.workers[tid].phase == Loading && s.workers[tid].run in s.store
    case Compute(tid, _, _, _) => tid in s.workers && s.workers[tid].copy.Some?
    case Save(tid) => tid in s.workers && s.workers[tid].copy.Some?
    case Observe(tid) => tid in s.workers && s.workers[tid].phase == Looping
    case Leave(tid, exit) =>
      // an outcome is returned only by the loop; a failure may also come from the clean-up after it
      tid in s.workers &&
      (exit == Returned(CompleteOutcome) ==> s.workers[tid].phase == Looping) &&
      exit in {Returned(CompleteOutcome), Raised, Aborted}
    case Finalize(tid) => tid in s.workers && s.workers[tid].phase.Exited?
  }

  ghost function Apply(s: State, step: Step): State {
    if !Enabled(s, step) then s else
    match step
    case Create(id, run) => s.(store := s.store[id := run])
    case Issue(id, command) => Commanded(s, id, command).0
    case Tick(order) => Ticked(s, order)
    case Close => ClosePaused(s)
    case Load(tid) => Loaded(s, tid)
    case Compute(tid, progress, message, reason) => Computed(s, tid, progress, message, reason)
    case Save(tid) => Saved(s, tid)
    case Observe(tid) => Observed(s, tid)
    case Leave(tid, exit) => Leaving(s, tid, exit)
    case Finalize(tid) => Finalized(s, tid)
  }

  /** Any interleaving whatsoever; a step that is not enabled changes nothing. */
  ghost function Exec(s: State, steps: seq<Step>): State
    decreases |steps|
  {
    if steps == [] then s else Apply(Exec(s, steps[..|steps| - 1]), steps[|steps| - 1])
  }
}
