/** The runtime object: the lifecycle steps as the methods that perform them under the lock. */
module Runtime {
  import opened Options
  import opened Lifecycle
  import opened LifecycleSafety

  class TrainingRuntime {
    var store: map<Id, Run>
    var threads: map<Id, Tid>
    var controls: map<Id, Control>
    var workers: map<Tid, Worker>
    var nextTid: Tid

    ghost function Now(): State
      reads this
    {
      State(store, threads, controls, workers, nextTid)
    }

    ghost predicate Valid()
      reads this
    {
      Inv(Now())
    }

    /** A fresh runtime over whatever records an earlier process left behind. */
    constructor (records: map<Id, Run>)
      requires forall id :: id in records ==> WithinBounds(records[id])
      requires forall id :: id in records && !Live(records[id].status) ==> FlagsAgree(records[id])
      ensures Valid() && Now() == Booted(records)
    {
      store := records;
      threads, controls, workers, nextTid := map[], map[], map[], 0;
      new;
      var rest := store.Keys;
      while rest != {}
        invariant rest <= records.Keys == store.Keys
        invariant threads == map[] && controls == map[] && workers == map[] && nextTid == 0
        invariant forall id :: id in store ==>
          store[id] == if id in rest then records[id] else Booted(records).store[id]
      {
        var id :| id in rest;
        var run := store[id];
        if run.status in {Training, Queued, Pausing, Stopping} {
          store := store[id := run.(status := ErrorRecoverable, paused := true, reason := DaemonRestart,
                                    message := RestartedWhileRunning)];
        }
        rest := rest - {id};
      }
      assert store == Booted(records).store;
      InvBooted(records);
    }

    method Command(id: Id, command: Command) returns (reply: Reply)
      requires Valid()
      modifies this
      ensures Valid()
      ensures (Now(), reply) == Commanded(old(Now()), id, command)
    {
      hide Inv;
      InvIssue(Now(), id, command);
      if id !in store { return NotFound; }
      var run := store[id];
      var control := if id in controls then controls[id] else NO_CONTROL;
      match command {
        case Start =>
          if run.status in {Queued, Training} { return Accepted(run); }
          if run.status != Draft { return WrongState(run.status); }
          run := run.(stopRequested := false, paused := false, status := Queued, message := WaitingForSlot);
          control := NO_CONTROL;
        case Resume =>
          if run.status !in {Paused, Stopped, ErrorRecoverable} { return WrongState(run.status); }
          run := run.(stopRequested := false, paused := false, status := Queued, message := ResumeQueued);
          control := NO_CONTROL;
        case Pause =>
          if run.status in {Pausing, Paused} { return Accepted(run); }
          if run.status !in {Queued, Training} { return WrongState(run.status); }
          var alive := id in threads;
          run := run.(paused := true, status := if alive then Pausing else Paused,
                      message := if alive then PauseRequested else PausedNow);
          control := control.(pause := true);
        case Stop =>
          if run.status in {Stopping, Stopped} { return Accepted(run); }
          if run.status !in {Draft, Queued, Training, Pausing, Paused, ErrorRecoverable} {
            return WrongState(run.status);
          }
          var alive := id in threads;
          run := run.(stopRequested := true, paused := true, status := if alive then Stopping else Stopped,
                      message := if alive then StopRequested else StoppedNow);
          control := control.(stop := true);
        case Unknown =>
          return UnknownCommand;
      }
      store := store[id := run];
      controls := controls[id := control];
      reply := Accepted(run);
    }

    method UsageNow() returns (gpu: nat, ram: nat, cpu: nat)
      requires threads.Keys <= store.Keys
      ensures gpu == Usage(store, threads.Keys, Gpu)
      ensures ram == Usage(store, threads.Keys, Ram)
      ensures cpu == Usage(store, threads.Keys, Cpu)
    {
      gpu, ram, cpu := 0, 0, 0;
      var rest := store.Keys;
      assert threads.Keys - rest == {};
      while rest != {}
        invariant rest <= store.Keys
        invariant gpu == Usage(store, threads.Keys - rest, Gpu)
        invariant ram == Usage(store, threads.Keys - rest, Ram)
        invariant cpu == Usage(store, threads.Keys - rest, Cpu)
      {
        var id :| id in rest;
        if id in threads {
          forall resource: Resource {
            UsageInsert(store, threads.Keys - rest, id, resource);
          }
          gpu, ram, cpu := gpu + store[id].gpu, ram + store[id].ram, cpu + store[id].cpu;
          assert threads.Keys - (rest - {id}) == threads.Keys - rest + {id};
        } else {
          assert threads.Keys - (rest - {id}) == threads.Keys - rest;
        }
        rest := rest - {id};
      }
      assert threads.Keys - rest == threads.Keys;
    }

    method CanStartNow(run: Run) returns (ok: bool)
      requires threads.Keys <= store.Keys
      ensures ok <==> CanStart(Now(), run)
    {
      var live := threads.Keys;
      while live != {}
        invariant live <= threads.Keys
        invariant forall id :: id in threads.Keys - live ==> store[id].status !in {Pausing, Stopping}
      {
        var id :| id in live;
        if store[id].status in {Pausing, Stopping} { return false; }
        live := live - {id};
      }
      var gpu, ram, cpu := UsageNow();
      ok := gpu + run.gpu <= CAP && ram + run.ram <= CAP && cpu + run.cpu <= CAP;
      assert forall id :: id in threads ==> id in threads.Keys - live;
      assert Demand(run, Gpu) == run.gpu && Demand(run, Ram) == run.ram && Demand(run, Cpu) == run.cpu;
      if !ok {
        assert exists resource :: Usage(store, threads.Keys, resource) + Demand(run, resource) > CAP by {
          if gpu + run.gpu > CAP { assert Usage(store, threads.Keys, Gpu) + Demand(run, Gpu) > CAP; }
          else if ram + run.ram > CAP { assert Usage(store, threads.Keys, Ram) + Demand(run, Ram) > CAP; }
          else { assert Usage(store, threads.Keys, Cpu) + Demand(run, Cpu) > CAP; }
        }
      } else {
        forall resource: Resource ensures Usage(store, threads.Keys, resource) + Demand(run, resource) <= CAP {
          match resource case Gpu => case Ram => case Cpu =>
        }
      }
    }

    /** One pass of the scheduler over the stored runs, listed by priority and age. */
    method ScheduleTick(order: seq<Id>)
      requires Valid() && ScheduleOrder(Now(), order)
      modifies this
      ensures Valid()
      ensures Now() == Ticked(old(Now()), order)
    {
      InvTick(Now(), order);
      VisitAll(order);
    }

    method VisitAll(order: seq<Id>)
      requires threads.Keys <= store.Keys
      requires forall id :: id in order ==> id in store
      modifies this
      ensures Now() == Ticked(old(Now()), order)
    {
      var i := 0;
      while i < |order|
        invariant 0 <= i <= |order|
        invariant threads.Keys <= store.Keys && store.Keys == old(store.Keys)
        invariant Ticked(Now(), order[i..]) == Ticked(old(Now()), order)
      {
        assert order[i..][0] == order[i] && order[i..][1..] == order[i + 1..];
        Visit(order[i]);
        i := i + 1;
      }
      assert order[i..] == [];
    }

    method Visit(id: Id)
      requires threads.Keys <= store.Keys && id in store
      modifies this
      ensures Now() == Admitted(old(Now()), id)
    {
      var run := store[id];
      if run.status != Queued || run.paused || run.stopRequested || id in threads { return; }
      var fits := CanStartNow(run);
      if !fits { return; }
      store := store[id := run.(status := Training, message := PreparingBackend)];
      controls := controls[id := if id in controls then controls[id] else NO_CONTROL];
      workers := workers[nextTid := Worker(id, None, Loading)];
      threads := threads[id := nextTid];
      nextTid := nextTid + 1;
    }

    /** The worker thread's reload-merge-store of its private record. */
    method SaveWorkerProgress(tid: Tid)
      requires Valid() && Enabled(Now(), Save(tid))
      modifies this
      ensures Valid()
      ensures Now() == Saved(old(Now()), tid)
    {
      hide Inv;
      InvSave(Now(), tid);
      var w := workers[tid];
      var run := w.copy.value;
      if w.run in store {
        var current := store[w.run];
        run := run.(status := current.status, paused := current.paused, stopRequested := current.stopRequested);
        if current.status in {Pausing, Stopping} {
          run := run.(message := current.message);
        }
      }
      store := store[w.run := run];
      workers := workers[tid := w.(copy := Some(run))];
    }

    /** The closing block of a worker thread. */
    method FinishWorker(tid: Tid)
      requires Valid() && Enabled(Now(), Finalize(tid))
      modifies this
      ensures Valid()
      ensures Now() == Finalized(old(Now()), tid)
    {
      hide Inv;
      InvFinalize(Now(), tid);
      var w := workers[tid];
      var exit := w.phase.exit;
      var failed := exit == Raised;
      var outcome := if exit.Returned? then exit.outcome else ErrorOutcome;
      var control := if w.run in controls then controls[w.run] else NO_CONTROL;
      if w.run in store {
        var run := store[w.run];
        if !failed {
          if run.status == Stopping || control.stop {
            outcome := StopOutcome;
          } else if run.status == Pausing || control.pause {
            outcome := PauseOutcome;
          }
        }
        store := store[w.run := SettledRun(run, outcome, failed)];
      }
      threads := threads - {w.run};
      controls := controls - {w.run};
      workers := workers - {tid};
    }

    /** The pausing half of `close`. */
    method PauseAllForClose()
      requires Valid()
      modifies this
      ensures Valid()
      ensures Now() == ClosePaused(old(Now()))
    {
      InvClose(Now());
      RequestPauses();
    }

    method RequestPauses()
      modifies this
      ensures Now() == ClosePaused(old(Now()))
    {
      var rest := threads.Keys;
      ghost var done := {};
      assert Now() == PausedFor(Now(), {});
      while rest != {}
        invariant done + rest == old(threads).Keys && done !! rest
        invariant Now() == PausedFor(old(Now()), done)
      {
        var id :| id in rest;
        RequestPause(id);
        PauseStep(old(Now()), done, id);
        rest := rest - {id};
        done := done + {id};
      }
      assert done == old(threads).Keys;
    }

    method RequestPause(id: Id)
      modifies this
      ensures Now() == PausedFor(old(Now()), {id})
    {
      var control := if id in controls then controls[id] else NO_CONTROL;
      controls := controls[id := control.(pause := true)];
      if id in store && store[id].status == Training {
        store := store[id := store[id].(status := Pausing, paused := true, message := ClosingPause)];
      }
      assert store == PausedFor(old(Now()), {id}).store;
      assert controls == PausedFor(old(Now()), {id}).controls;
    }
  }

  lemma PauseStep(s: State, done: set<Id>, id: Id)
    requires id !in done
    ensures PausedFor(PausedFor(s, done), {id}) == PausedFor(s, done + {id})
  {
    var a, b := PausedFor(PausedFor(s, done), {id}), PausedFor(s, done + {id});
    assert a.store == b.store;
    assert a.controls.Keys == b.controls.Keys;
    assert a.controls == b.controls;
  }
}
