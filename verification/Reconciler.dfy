/**
 The reconcile functions of the NixosConfiguration controller as they are written: methods
 that change the working copy of the configuration and the API server's objects step by
 step. Whatever the server answers and the environment does in between, what they do is a
 run of the transition system, so its theorems are theorems about them.
 */
module Reconciler {
  import opened Lifecycle
  import opened LifecycleCalls
  import opened LifecycleInvariant
  import opened LifecycleTheorems

  /** What a write comes back with. */
  datatype Answer = Accepted | Conflicted | Failed

  function AnswerTo(c: Config, rv: nat, r: Reply): Answer {
    if r.Fail? || !c.stored then Failed
    else if r.Conflict? || c.rv != rv then Conflicted
    else if r.Ok? then Accepted
    else Failed
  }

  const IdleWorker := Worker(Idle, NoConfig, NoMachineSeen, NoConfig, 0, NoFlake)
  const NoConfig := Config(false, 0, 0, false, false, Spec(false, false, false), EmptyStatus)
  const NoMachineSeen := Machine(false, 0, false, false, false)
  const NoHistory := History(NoInstalls, NoRemovals, DayTwoLedger(0, false))

  /** The objects after an action of the environment. */
  function Disturbed(o: Objects, a: Action): Objects {
    EnvStep(Sys(o, IdleWorker, NoHistory), a).o
  }

  lemma DisturbedObjects(s: Sys, a: Action)
    ensures EnvStep(s, a).o == Disturbed(s.o, a) && EnvStep(s, a).w == s.w
  {
  }

  // ----- The objects a step leaves alone -------------------------------------------

  lemma ObserveInstallFrame(s: Sys, job: Child)
    ensures ObserveInstall(s, job).o == s.o
  {
  }

  lemma ObserveDayTwoFrame(s: Sys, cron: Cron)
    ensures ObserveDayTwo(s, cron).o == s.o
  {
  }

  lemma ObserveRemoveFrame(s: Sys)
    ensures ObserveRemove(s).o == s.o
  {
  }

  // ----- Playing a script -----------------------------------------------------------

  /**
   The trace is what has been played of the plan; once the script is used up, every
   further call fails. So of two traces of one plan the longer extends the shorter.
   */
  ghost predicate Played(plan: seq<Label>, trace: seq<Label>, script: seq<Label>) {
    && (forall l :: l in script ==> !l.Crash?)
    && if script != [] then trace + script == plan
       else |plan| <= |trace| && trace[..|plan|] == plan && forall i :: |plan| <= i < |trace| ==> trace[i] == Act(Fail)
  }

  lemma PlayedExtends(plan: seq<Label>, a: seq<Label>, restA: seq<Label>, b: seq<Label>, restB: seq<Label>)
    requires Played(plan, a, restA) && Played(plan, b, restB) && |a| <= |b|
    ensures a <= b
  {
    forall i | 0 <= i < |a|
      ensures a[i] == b[i]
    {
      PlayedAt(plan, a, restA, i);
      PlayedAt(plan, b, restB, i);
    }
  }

  lemma PlayedAt(plan: seq<Label>, a: seq<Label>, rest: seq<Label>, i: nat)
    requires Played(plan, a, rest) && i < |a|
    ensures a[i] == if i < |plan| then plan[i] else Act(Fail)
  {
    if rest != [] {
      assert (a + rest)[i] == a[i];
    } else if i < |plan| {
      assert a[..|plan|][i] == a[i];
    }
  }

  lemma PlayOne(plan: seq<Label>, trace: seq<Label>, script: seq<Label>)
    requires Played(plan, trace, script) && script != []
    ensures Played(plan, trace + [script[0]], script[1..])
  {
    assert forall l :: l in script[1..] ==> l in script;
    assert trace + [script[0]] + script[1..] == trace + script;
    if script[1..] == [] { assert trace + [script[0]] == plan; }
  }

  lemma HeadIsNoCrash(plan: seq<Label>, trace: seq<Label>, script: seq<Label>)
    requires Played(plan, trace, script) && script != []
    ensures !script[0].Crash?
  {
    assert script[0] in script;
  }

  lemma PlayFail(plan: seq<Label>, trace: seq<Label>)
    requires Played(plan, trace, [])
    ensures Played(plan, trace + [Act(Fail)], [])
  {
    assert (trace + [Act(Fail)])[..|plan|] == trace[..|plan|];
  }

  class Controller {
    /** The API server's objects. */
    var api: Objects

    /** The working copy of the configuration being reconciled. */
    var config: Config

    /** What is still to come: actions of the environment and replies of the server. */
    var script: seq<Label>

    /** The state of the transition system, and the actions taken since the start. */
    ghost var s: Sys
    ghost const start: Sys
    ghost const plan: seq<Label>
    ghost var trace: seq<Label>

    ghost predicate Valid()
      reads this
    {
      s.o == api && s == Exec(start, trace) && Played(plan, trace, script)
    }

    /** What the server answers next. */
    ghost predicate Answers(r: Reply)
      reads this
    {
      if script == [] then r == Fail else script[0] == Act(r)
    }

    /** The transition system is about to make this call with the working copy. */
    ghost predicate At(call: Call)
      reads this
    {
      Valid() && s.w.at == call && s.w.wc == config
    }

    constructor (o: Objects, script: seq<Label>, ghost h: History)
      requires forall l :: l in script ==> !l.Crash?
      ensures Valid() && s.w.at.Idle? && start == Sys(o, IdleWorker, h) && trace == [] && plan == this.script == script
    {
      api, config, this.script := o, NoConfig, script;
      s, start, trace, plan := Sys(o, IdleWorker, h), Sys(o, IdleWorker, h), [], script;
      new;
      assert [] + script == script;
    }

    /** The environment acts for a while, until the server answers the next call. */
    method Await() returns (r: Reply)
      requires Valid()
      modifies this`api, this`script, this`s, this`trace
      ensures Valid() && s.w == old(s.w) && Answers(r) && |trace| >= |old(trace)|
    {
      hide Played;
      while script != [] && script[0].Env?
        invariant Valid() && s.w == old(s.w) && |trace| >= |old(trace)|
      {
        DisturbedObjects(s, script[0].action);
        ExecConcat(start, trace, [script[0]]);
        PlayOne(plan, trace, script);
        s, trace := Next(s, script[0]), trace + [script[0]];
        api := Disturbed(api, script[0].action);
        script := script[1..];
      }
      if script == [] {
        return Fail;
      }
      HeadIsNoCrash(plan, trace, script);
      r := script[0].reply;
    }

    /** The call is made: the answer is taken off the script, and the transition system follows. */
    method Took(r: Reply)
      requires s == Exec(start, trace) && Played(plan, trace, script) && Answers(r)
      modifies this`script, this`s, this`trace
      ensures s == WorkerStep(old(s), r) && s == Exec(start, trace) && Played(plan, trace, script)
      ensures trace == old(trace) + [Act(r)]
    {
      hide WorkerStep, Played;
      ExecConcat(start, trace, [Act(r)]);
      if script == [] { PlayFail(plan, trace); } else { PlayOne(plan, trace, script); }
      s, trace := WorkerStep(s, r), trace + [Act(r)];
      if script != [] {
        script := script[1..];
      }
    }

    // ----- Writes ------------------------------------------------------------------

    method UpdateStatus(c: Config, r: Reply) returns (a: Answer)
      modifies this`api
      ensures api == (if Accepts(old(api).c, c, r) then old(api).(c := StoreStatus(old(api).c, c.status)) else old(api))
      ensures a == AnswerTo(old(api).c, c.rv, r)
    {
      a := AnswerTo(api.c, c.rv, r);
      if Accepts(api.c, c, r) {
        api := api.(c := StoreStatus(api.c, c.status));
      }
    }

    /** Metadata and spec, not the status. */
    method Update(c: Config, r: Reply) returns (a: Answer)
      modifies this`api
      ensures api == (if Accepts(old(api).c, c, r)
                      then old(api).(c := old(api).c.(spec := c.spec, finalizer := c.finalizer, rv := old(api).c.rv + 1))
                      else old(api))
      ensures a == AnswerTo(old(api).c, c.rv, r)
    {
      a := AnswerTo(api.c, c.rv, r);
      if Accepts(api.c, c, r) {
        api := api.(c := api.c.(spec := c.spec, finalizer := c.finalizer, rv := api.c.rv + 1));
      }
    }

    // ----- A live configuration ------------------------------------------------------

    /** One whole pass: it makes at least one call, and what it does continues the trace. */
    method Reconcile()
      requires Valid() && s.w.at.Idle?
      modifies this
      ensures Valid() && s.w.at.Idle?
      ensures old(trace) <= trace && exists i :: |old(trace)| <= i < |trace| && trace[i].Act?
    {
      hide WorkerStep, Exec, Played;
      ghost var before, rest := trace, script;
      var r := Await();
      EntryCalls(s, r);
      Took(r);
      ghost var called, left := trace, script;
      if r.Ok? && api.c.stored {
        config := api.c;
        if config.deleting {
          if config.finalizer {
            ReconcileRemoving();
          }
        } else {
          ReconcileLive();
        }
      }
      PlayedExtends(plan, before, rest, trace, script);
      PlayedExtends(plan, called, left, trace, script);
      assert trace[|called| - 1] == called[|called| - 1] == Act(r);
    }

    method ReconcileLive()
      requires Valid() && !config.deleting
      requires if config.finalizer then s.w.at.ListOwner? && s.w.wc == Observed(config) else At(AddFinalizer)
      modifies this
      ensures |trace| >= |old(trace)|
      ensures Valid() && s.w.at.Idle?
    {
      hide WorkerStep, Exec, Played;
      if !config.finalizer {
        var added := EnsureFinalizer();
        if !added {
          return;
        }
      }
      config := config.(status := config.status.(observed := config.generation));
      RunStateMachine();
      FinishPass();
    }

    method EnsureFinalizer() returns (added: bool)
      requires At(AddFinalizer) && !config.finalizer
      modifies this
      ensures |trace| >= |old(trace)|
      ensures Valid() && if added then s.w.at.ListOwner? && s.w.wc == Observed(config) else s.w.at.Idle?
    {
      hide WorkerStep, Exec, Played;
      config := config.(finalizer := true);
      var r := Await();
      EntryCalls(s, r);
      Took(r);
      var a := Update(config, r);
      added := a.Accepted?;
      config := api.c;
    }

    /** The one status write that ends a pass. */
    method FinishPass()
      requires At(FinalWrite)
      modifies this
      ensures |trace| >= |old(trace)|
      ensures Valid() && s.w.at.Idle?
    {
      hide WorkerStep, Exec, Played;
      var r := Await();
      EntryCalls(s, r);
      Took(r);
      var a := UpdateStatus(config, r);
    }

    method RunStateMachine()
      requires At(ListOwner)
      modifies this
      ensures |trace| >= |old(trace)|
      ensures At(FinalWrite)
    {
      hide WorkerStep, Exec, Played;
      var r := Await();
      GateCalls(s, r);
      Took(r);
      if !r.Ok? {
        return;
      }
      if api.ownedByOther {
        config := SetBlocked(config);
        SuspendDayTwoCronIfExists();
        return;
      }
      var machine, go := GateOnMachine();
      if !go {
        return;
      }
      config := config.(status := config.status.(target := true));
      if config.spec.fullInstall && !config.status.completed {
        var done := ReconcileInstall(machine);
        if !done {
          return;
        }
      }
      ReconcileDayTwo(machine);
    }

    /** Blocks, suspending the recurring child, while the Machine is missing or unreachable. */
    method GateOnMachine() returns (machine: Machine, go: bool)
      requires At(GetMachine)
      modifies this
      ensures |trace| >= |old(trace)|
      ensures if !go then At(FinalWrite)
              else Valid() && s.w.wc == Targeted(config) && s.w.mach == machine
                   && s.w.at == (if !Buildable(config, machine) then FinalWrite
                                 else if config.spec.fullInstall && !config.status.completed then InstallGet
                                 else DayTwoGet)
    {
      hide WorkerStep, Exec, Played;
      var r := Await();
      GateCalls(s, r);
      Took(r);
      machine, go := api.m, false;
      if !r.Ok? {
        return;
      }
      if !machine.stored || !machine.discoverable {
        config := SetBlocked(config);
        SuspendDayTwoCronIfExists();
        return;
      }
      go := true;
    }

    method SuspendDayTwoCronIfExists()
      requires At(SuspendGet)
      modifies this
      ensures |trace| >= |old(trace)|
      ensures At(FinalWrite)
    {
      hide WorkerStep, Exec, Played;
      var r := Await();
      GateCalls(s, r);
      Took(r);
      if !r.Ok? || !api.cron.present || api.cron.suspended {
        return;
      }
      r := Await();
      GateCalls(s, r);
      Took(r);
      if Acted(r) && api.cron.present {
        api := api.(cron := api.cron.(suspended := true));
      }
    }

    // ----- Install ----------------------------------------------------------------------

    /** Creates or updates the child and returns its state; `seen` is the system as it looks at the child. */
    method EnsureInstallNixJob(machine: Machine) returns (ok: bool, job: Child, ghost seen: Sys)
      requires Valid() && s.w.wc == config && s.w.mach == machine
      requires s.w.at == if Buildable(config, machine) then InstallGet else FinalWrite
      modifies this`api, this`script, this`s, this`trace
      ensures |trace| >= |old(trace)|
      ensures if ok then Valid() && s == ObserveInstall(seen, job) && seen.w.wc == config && seen.w.mach == machine
              else At(FinalWrite)
    {
      hide WorkerStep, Exec, Played, ObserveInstall;
      ok, job, seen := false, NoChild, s;
      if !Buildable(config, machine) {
        return;
      }
      var r := Await();
      InstallCalls(s, r);
      seen := s;
      Took(r);
      if !r.Ok? {
        return;
      }
      job := api.install;
      ObserveInstallFrame(seen, job);
      if job.present && job.deleting {
        return true, job, seen;
      }
      r := Await();
      InstallCalls(s, r);
      seen := s;
      Took(r);
      if !job.present {
        if Acted(r) && !api.install.present {
          api := api.(install := FreshChild);
          seen := SetInstall(seen, FreshChild, seen.h.il.(created := seen.h.il.created + 1));
          ObserveInstallFrame(seen, FreshChild);
          return r.Ok?, FreshChild, seen;
        }
        return;
      }
      ObserveInstallFrame(seen, api.install);
      job := api.install;
      ok := r.Ok? && job.present;
    }

    method ReconcileInstall(machine: Machine) returns (done: bool)
      requires Valid() && s.w.wc == config && s.w.mach == machine
      requires s.w.at == if Buildable(config, machine) then InstallGet else FinalWrite
      modifies this
      ensures |trace| >= |old(trace)|
      ensures if done
              then Valid() && s.w.wc == config && s.w.mach == machine
                   && s.w.at == if Buildable(config, machine) then DayTwoGet else FinalWrite
              else At(FinalWrite)
    {
      hide WorkerStep, Exec, Played, ObserveInstall;
      var ok, job, seen := EnsureInstallNixJob(machine);
      done := false;
      if ok {
        done := FollowInstall(machine, job, seen);
      }
    }

    /** The switch on the child's outcome; `seen` is the system as it looks at the child. */
    method FollowInstall(machine: Machine, job: Child, ghost seen: Sys) returns (done: bool)
      requires Valid() && s == ObserveInstall(seen, job) && seen.w.wc == config && seen.w.mach == machine
      modifies this
      ensures |trace| >= |old(trace)|
      ensures if done
              then Valid() && s.w.wc == config && s.w.mach == machine
                   && s.w.at == if Buildable(config, machine) then DayTwoGet else FinalWrite
              else At(FinalWrite)
    {
      hide WorkerStep, Exec, Played;
      done := false;
      config := config.(status := config.status.(installRef := true));
      if job.succeeded {
        done := CompleteInstall(machine);
      } else if job.failed {
        if job.deleting {
          config := SetPhase(config, Installing, false);
          return;
        }
        if config.status.installRetries >= MaxInstallRetries {
          config := SetPhase(config, Degraded, false);
          return;
        }
        config := config.(status := config.status.(installRetries := config.status.installRetries + 1));
        RetryInstall();
      } else {
        config := SetPhase(config, Installing, false);
      }
    }

    /** Commits completion first, then deletes the child. */
    method CompleteInstall(machine: Machine) returns (done: bool)
      requires At(MarkGet) && s.w.tries == 0 && s.w.mach == machine
      modifies this
      ensures |trace| >= |old(trace)|
      ensures if done
              then Valid() && s.w.wc == config && s.w.mach == machine
                   && s.w.at == if Buildable(config, machine) then DayTwoGet else FinalWrite
              else At(FinalWrite)
    {
      hide WorkerStep, Exec, Played;
      done := MarkFullDiskInstallCompleted();
      if !done {
        return;
      }
      var r := Await();
      MarkCalls(s, r);
      Took(r);
      if Acted(r) && Live(api.install) {
        api := api.(install := api.install.(deleting := true));
      }
      done := r.Ok?;
    }

    /** The failure is counted on the working copy only. */
    method RetryInstall()
      requires At(InstallDelete)
      modifies this
      ensures |trace| >= |old(trace)|
      ensures At(FinalWrite)
    {
      hide WorkerStep, Exec, Played;
      var r := Await();
      MarkCalls(s, r);
      Took(r);
      if Acted(r) && Live(api.install) {
        api := api.(install := api.install.(deleting := true));
      }
      if r.Ok? {
        config := SetPhase(config, Installing, false);
      }
    }

    /** Re-reads and writes until the write does not conflict, a bounded number of times. */
    method MarkFullDiskInstallCompleted() returns (ok: bool)
      requires At(MarkGet) && s.w.tries == 0
      modifies this
      ensures |trace| >= |old(trace)|
      ensures At(if ok then MarkDelete else FinalWrite) && s.w.mach == old(s.w.mach)
    {
      hide WorkerStep, Exec, Played;
      ok := false;
      var tries := 0;
      while tries < ConflictAttempts
        invariant tries <= ConflictAttempts && s.w.mach == old(s.w.mach) && |trace| >= |old(trace)|
        invariant if tries < ConflictAttempts then At(MarkGet) && s.w.tries == tries else At(FinalWrite)
      {
        var a := TryMark();
        if a.Accepted? {
          return true;
        }
        if a.Failed? {
          return;
        }
        tries := tries + 1;
      }
    }

    /** One attempt: re-read, mark, write, and on success sync the working copy. */
    method TryMark() returns (a: Answer)
      requires At(MarkGet)
      modifies this
      ensures |trace| >= |old(trace)|
      ensures Valid() && s.w.wc == config && s.w.mach == old(s.w.mach)
      ensures match a
              case Accepted => s.w.at.MarkDelete?
              case Failed => s.w.at.FinalWrite?
              case Conflicted =>
                if old(s.w.tries) + 1 < ConflictAttempts then s.w.at.MarkGet? && s.w.tries == old(s.w.tries) + 1
                else s.w.at.FinalWrite?
    {
      hide WorkerStep, Exec, Played;
      var r := Await();
      MarkCalls(s, r);
      Took(r);
      if !r.Ok? || !api.c.stored {
        return Failed;
      }
      var latest := api.c;
      latest := latest.(status := latest.status.(completed := true, installRef := false));
      a := WriteMark(latest);
      if a.Accepted? {
        config := config.(status := latest.status, rv := api.c.rv);
      }
    }

    method WriteMark(latest: Config) returns (a: Answer)
      requires At(MarkWrite) && s.w.latest.rv == latest.rv
      requires latest.status == s.w.latest.status.(completed := true, installRef := false)
      modifies this`api, this`script, this`s, this`trace
      ensures |trace| >= |old(trace)|
      ensures Valid() && s.w.mach == old(s.w.mach)
      ensures match a
              case Accepted => s.w.at.MarkDelete? && s.w.wc == config.(status := latest.status, rv := api.c.rv)
              case Failed => At(FinalWrite)
              case Conflicted =>
                s.w.wc == config
                && if old(s.w.tries) + 1 < ConflictAttempts then s.w.at.MarkGet? && s.w.tries == old(s.w.tries) + 1
                   else s.w.at.FinalWrite?
    {
      hide WorkerStep, Exec, Played;
      var r := Await();
      MarkCalls(s, r);
      Took(r);
      a := UpdateStatus(latest, r);
    }

    // ----- Day two -----------------------------------------------------------------------

    method EnsureDayTwoNixCronJob(machine: Machine) returns (ok: bool, cron: Cron, ghost seen: Sys)
      requires Valid() && s.w.wc == config && s.w.mach == machine
      requires s.w.at == if Buildable(config, machine) then DayTwoGet else FinalWrite
      modifies this`api, this`script, this`s, this`trace
      ensures |trace| >= |old(trace)|
      ensures if ok then Valid() && s == ObserveDayTwo(seen, cron) && seen.w.wc == config && seen.w.mach == machine
              else At(FinalWrite)
    {
      hide WorkerStep, Exec, Played, ObserveDayTwo;
      ok, cron, seen := false, NoCron, s;
      if !Buildable(config, machine) {
        return;
      }
      var r := Await();
      DayTwoCalls(s, r);
      seen := s;
      Took(r);
      if !r.Ok? {
        return;
      }
      cron := api.cron;
      ObserveDayTwoFrame(seen, cron);
      if cron.present && cron.deleting {
        return true, cron, seen;
      }
      r := Await();
      DayTwoCalls(s, r);
      seen := s;
      Took(r);
      if !cron.present {
        if Acted(r) && !api.cron.present {
          api := api.(cron := FreshCron);
          seen := PutCron(seen, FreshCron).(h := seen.h.(dl := seen.h.dl.(created := seen.h.dl.created + 1)));
          ObserveDayTwoFrame(seen, FreshCron);
          return r.Ok?, FreshCron, seen;
        }
        return;
      }
      if Acted(r) && api.cron.present {
        api := api.(cron := api.cron.(suspended := false));
        seen := PutCron(seen, api.cron);
        ObserveDayTwoFrame(seen, api.cron);
        return r.Ok?, api.cron, seen;
      }
    }

    method ReconcileDayTwo(machine: Machine)
      requires Valid() && s.w.wc == config && s.w.mach == machine
      requires s.w.at == if Buildable(config, machine) then DayTwoGet else FinalWrite
      modifies this
      ensures |trace| >= |old(trace)|
      ensures At(FinalWrite)
    {
      hide WorkerStep, Exec, Played;
      var ok, cron, seen := EnsureDayTwoNixCronJob(machine);
      if !ok {
        return;
      }
      config := config.(status := config.status.(dayTwoRef := true));
      var applied := config.status.completed || cron.everSucceeded;
      if cron.phase.CronReady? && cron.everSucceeded {
        config := SetPhase(config, Ready, true);
        WriteBackMachineStatus(machine);
      } else if cron.infraStalled {
        config := SetPhase(config, Degraded, applied);
      } else if cron.phase.CronFailing? {
        config := SetPhase(config, Degraded, applied);
      } else {
        config := SetPhase(config, Converging, applied);
      }
    }

    method WriteBackMachineStatus(machine: Machine)
      requires At(WriteBack) && s.w.mach == machine
      modifies this`api, this`script, this`s, this`trace
      ensures |trace| >= |old(trace)|
      ensures At(FinalWrite)
    {
      hide WorkerStep, Exec, Played;
      var r := Await();
      DayTwoCalls(s, r);
      Took(r);
      if MachineAccepts(api.m, machine, r) {
        api := api.(m := StoreApplied(api.m, true));
      }
    }

    // ----- Removal --------------------------------------------------------------------------

    method ReconcileRemoving()
      requires At(RemCronGet)
      modifies this
      ensures |trace| >= |old(trace)|
      ensures Valid() && s.w.at.Idle?
    {
      hide WorkerStep, Exec, Played;
      DeleteDayTwoCronIfExists();
      var r := Await();
      RemovalCalls(s, r);
      Took(r);
      if !r.Ok? {
        return;
      }
      var machine := api.m;
      if !config.spec.onRemove || !machine.stored {
        if machine.stored {
          var ok := ClearMachineStatus(machine, NoFlake);
          if !ok {
            return;
          }
        }
        Finish();
        return;
      }
      Decommission(machine);
    }

    /** Trouble is only logged. */
    method DeleteDayTwoCronIfExists()
      requires At(RemCronGet)
      modifies this`api, this`script, this`s, this`trace
      ensures |trace| >= |old(trace)|
      ensures At(RemGetMachine)
    {
      hide WorkerStep, Exec, Played;
      var r := Await();
      RemovalCalls(s, r);
      Took(r);
      if !r.Ok? || !api.cron.present || api.cron.deleting {
        return;
      }
      r := Await();
      RemovalCalls(s, r);
      Took(r);
      if Acted(r) && api.cron.present {
        api := api.(cron := api.cron.(deleting := true));
      }
    }

    /** Only if the Machine still points at this configuration. */
    method ClearMachineStatus(machine: Machine, ghost why: Reason) returns (ok: bool)
      requires Valid() && s.w.wc == config && s.w.mach == machine && s.w.why == why
      requires s.w.at == if machine.appliedHere then RemClear else if Terminal(why) then RemDeleteFinal else Call.Finalize
      modifies this`api, this`script, this`s, this`trace
      ensures |trace| >= |old(trace)|
      ensures if ok then At(if Terminal(why) then RemDeleteFinal else Call.Finalize) && s.w.why == why
              else Valid() && s.w.at.Idle?
    {
      hide WorkerStep, Exec, Played;
      if !machine.appliedHere {
        return true;
      }
      var r := Await();
      CloseCalls(s, r);
      Took(r);
      ok := r.Ok? && (!api.m.stored || api.m.rv == machine.rv);
      if MachineAccepts(api.m, machine, r) {
        api := api.(m := StoreApplied(api.m, false));
      }
    }

    /** Removes the finalizer. */
    method Finish()
      requires At(Call.Finalize)
      modifies this
      ensures |trace| >= |old(trace)|
      ensures Valid() && s.w.at.Idle?
    {
      hide WorkerStep, Exec, Played;
      config := config.(finalizer := false);
      var r := Await();
      CloseCalls(s, r);
      Took(r);
      var a := Update(config, r);
    }

    method DeleteDecommissionJob() returns (ok: bool)
      requires At(RemDeleteFinal)
      modifies this`api, this`script, this`s, this`trace
      ensures |trace| >= |old(trace)|
      ensures if ok then At(Call.Finalize) else Valid() && s.w.at.Idle?
    {
      hide WorkerStep, Exec, Played;
      var r := Await();
      CloseCalls(s, r);
      Took(r);
      if Acted(r) && Live(api.remove) {
        api := api.(remove := api.remove.(deleting := true));
      }
      ok := r.Ok?;
    }

    /** After a terminal outcome: Machine, child, finalizer, in this order. */
    method Close(machine: Machine, ghost why: Reason)
      requires Terminal(why) && Valid() && s.w.wc == config && s.w.mach == machine && s.w.why == why
      requires s.w.at == if machine.appliedHere then RemClear else RemDeleteFinal
      modifies this
      ensures |trace| >= |old(trace)|
      ensures Valid() && s.w.at.Idle?
    {
      var ok := ClearMachineStatus(machine, why);
      if !ok {
        return;
      }
      ok := DeleteDecommissionJob();
      if !ok {
        return;
      }
      Finish();
    }

    method StatusUpdate()
      requires At(RemStatus)
      modifies this`api, this`script, this`s, this`trace
      ensures |trace| >= |old(trace)|
      ensures Valid() && s.w.at.Idle?
    {
      hide WorkerStep, Exec, Played;
      var r := Await();
      FindCalls(s, r);
      Took(r);
      var a := UpdateStatus(config, r);
    }

    /** Looks the child up by label. */
    method FindDecommissionJob(machine: Machine) returns (ok: bool, job: Child, ghost seen: Sys)
      requires At(RemFind) && s.w.mach == machine
      modifies this`api, this`script, this`s, this`trace
      ensures |trace| >= |old(trace)|
      ensures Valid()
      ensures !ok ==> s.w.at.Idle?
      ensures ok && !job.present ==>
                s.w.wc == config && s.w.mach == machine
                && s.w.at == if Buildable(config, machine) then RemCreateGet else Call.Finalize
      ensures ok && job.present ==>
                s == ObserveRemove(seen) && seen.w.wc == config.(status := config.status.(removeRef := true))
                && seen.w.mach == machine && seen.o.remove == job
    {
      hide WorkerStep, Exec, Played, ObserveRemove, Abandon;
      var r := Await();
      FindCalls(s, r);
      AbandonFrame(s);
      seen := GotoWith(s, RemFind, s.w.wc.(status := s.w.wc.status.(removeRef := true)));
      ObserveRemoveFrame(seen);
      Took(r);
      ok, job := r.Ok?, api.remove;
    }

    method Decommission(machine: Machine)
      requires At(RemFind) && s.w.mach == machine
      modifies this
      ensures |trace| >= |old(trace)|
      ensures Valid() && s.w.at.Idle?
    {
      hide WorkerStep, Exec, Played, ObserveRemove;
      var ok, job, seen := FindDecommissionJob(machine);
      if !ok {
        return;
      }
      if job.present {
        config := config.(status := config.status.(removeRef := true));
        FollowDecommission(machine, job, seen);
      } else {
        StartDecommission(machine);
      }
    }

    method StartDecommission(machine: Machine)
      requires Valid() && s.w.wc == config && s.w.mach == machine
      requires s.w.at == if Buildable(config, machine) then RemCreateGet else Call.Finalize
      modifies this
      ensures |trace| >= |old(trace)|
      ensures Valid() && s.w.at.Idle?
    {
      hide WorkerStep, Exec, Played;
      var created := EnsureDecommissionNixJob(machine);
      if !created {
        Finish();
        return;
      }
      config := config.(status := config.status.(removeRef := true));
      config := MarkRemoving(config);
      StatusUpdate();
    }

    /** The switch on the child's outcome; `seen` is the system as it looks at the child. */
    method FollowDecommission(machine: Machine, job: Child, ghost seen: Sys)
      requires Valid() && s == ObserveRemove(seen) && seen.w.wc == config && seen.w.mach == machine && seen.o.remove == job
      modifies this
      ensures |trace| >= |old(trace)|
      ensures Valid() && s.w.at.Idle?
    {
      hide WorkerStep, Exec, Played;
      if job.succeeded {
        Close(machine, Succeeded);
      } else if job.failed {
        if !job.deleting {
          var ok := CountFailure(machine);
          if !ok {
            return;
          }
        }
        if config.status.removeRetries >= MaxOnRemoveRetries {
          Close(machine, GaveUp);
          return;
        }
        config := MarkRemoving(config);
        StatusUpdate();
      } else {
        config := MarkRemoving(config);
        StatusUpdate();
      }
    }

    /** Creates the child if it is absent; any error counts as "cannot create". */
    method EnsureDecommissionNixJob(machine: Machine) returns (ok: bool)
      requires Valid() && s.w.wc == config && s.w.mach == machine
      requires s.w.at == if Buildable(config, machine) then RemCreateGet else Call.Finalize
      modifies this`api, this`script, this`s, this`trace
      ensures |trace| >= |old(trace)|
      ensures if ok then Valid() && s.w.at.RemStatus? && s.w.wc == Requested(config) else At(Call.Finalize)
    {
      hide WorkerStep, Exec, Played;
      if !Buildable(config, machine) {
        return false;
      }
      var r := Await();
      FindCalls(s, r);
      Took(r);
      if !r.Ok? {
        return false;
      }
      if api.remove.present {
        return true;
      }
      r := Await();
      FindCalls(s, r);
      Took(r);
      ok := r.Ok? && !api.remove.present;
      if Acted(r) && !api.remove.present {
        api := api.(remove := FreshChild);
      }
    }

    /** Commits the count first, then deletes the failed child. */
    method CountFailure(machine: Machine) returns (ok: bool)
      requires At(BumpGet) && s.w.tries == 0 && s.w.mach == machine
      modifies this
      ensures |trace| >= |old(trace)|
      ensures if !ok then Valid() && s.w.at.Idle?
              else Valid() && s.w.mach == machine
                   && if config.status.removeRetries >= MaxOnRemoveRetries
                      then s.w.wc == config && s.w.why == GaveUp && s.w.at == (if machine.appliedHere then RemClear else RemDeleteFinal)
                      else s.w.at.RemStatus? && s.w.wc == MarkRemoving(config)
    {
      hide WorkerStep, Exec, Played;
      ok := BumpOnRemoveRetries();
      if !ok {
        return;
      }
      var r := Await();
      BumpCalls(s, r);
      Took(r);
      if Acted(r) && Live(api.remove) {
        api := api.(remove := api.remove.(deleting := true));
      }
      ok := r.Ok?;
    }

    method BumpOnRemoveRetries() returns (ok: bool)
      requires At(BumpGet) && s.w.tries == 0
      modifies this
      ensures |trace| >= |old(trace)|
      ensures if ok then At(RemDeleteFailed) && s.w.mach == old(s.w.mach) else Valid() && s.w.at.Idle?
    {
      hide WorkerStep, Exec, Played;
      ok := false;
      var tries := 0;
      while tries < ConflictAttempts
        invariant tries <= ConflictAttempts && Valid() && |trace| >= |old(trace)|
        invariant if tries < ConflictAttempts then At(BumpGet) && s.w.tries == tries && s.w.mach == old(s.w.mach)
                  else s.w.at.Idle?
      {
        var r := Await();
        BumpCalls(s, r);
        Took(r);
        if !r.Ok? || !api.c.stored {
          return;
        }
        var latest := api.c;
        latest := latest.(status := latest.status.(removeRetries := latest.status.removeRetries + 1, phase := Removing));
        var a := WriteBump(latest);
        if a.Accepted? {
          config := config.(status := latest.status, rv := api.c.rv);
          return true;
        }
        if a.Failed? {
          return;
        }
        tries := tries + 1;
      }
    }

    method WriteBump(latest: Config) returns (a: Answer)
      requires At(BumpWrite) && s.w.latest.rv == latest.rv
      requires latest.status ==
               s.w.latest.status.(removeRetries := s.w.latest.status.removeRetries + 1, phase := Removing)
      modifies this`api, this`script, this`s, this`trace
      ensures |trace| >= |old(trace)|
      ensures Valid()
      ensures match a
              case Accepted =>
                s.w.at.RemDeleteFailed? && s.w.wc == config.(status := latest.status, rv := api.c.rv)
                && s.w.mach == old(s.w.mach)
              case Failed => s.w.at.Idle?
              case Conflicted =>
                if old(s.w.tries) + 1 < ConflictAttempts
                then s.w.at.BumpGet? && s.w.wc == config && s.w.tries == old(s.w.tries) + 1 && s.w.mach == old(s.w.mach)
                else s.w.at.Idle?
    {
      hide WorkerStep, Exec, Played, Abandon;
      var r := Await();
      BumpCalls(s, r);
      AbandonFrame(s);
      AbandonFrame(Bumped(s));
      Took(r);
      a := UpdateStatus(latest, r);
    }
  }

  // ----- Whole runs of the controller ----------------------------------------------

  /**
   Reconciles again and again. Whatever the script holds, what has happened is a run of
   the transition system from its initial state that continues the run so far: the
   committed objects obey its accounting, a completed install stays completed, and no
   further install child is created.
   */
  method Control(c: Controller, passes: nat)
    requires c.Valid() && c.s.w.at.Idle? && Initial(c.start)
    modifies c
    ensures c.Valid() && c.s.w.at.Idle? && Inv(c.s)
    ensures old(c.trace) <= c.trace && |c.trace| >= |old(c.trace)| + passes
    ensures c.api.c.status.installRetries <= MaxInstallRetries
    ensures c.s.h.il.created <= 1 + c.api.c.status.installRetries + c.s.h.il.lost + c.s.h.il.external
    ensures c.s.h.rl.created <= MaxOnRemoveRetries + c.s.h.rl.unfinished + c.s.h.rl.external
    ensures old(c.api.c.status.completed) ==>
              c.api.c.status.completed && c.s.h.il.created == old(c.s.h.il.created)
  {
    hide Played, WorkerStep, Exec;
    ghost var before, rest := c.trace, c.script;
    var i := 0;
    while i < passes
      invariant c.Valid() && c.s.w.at.Idle? && i <= passes && |c.trace| >= |before| + i
    {
      c.Reconcile();
      i := i + 1;
    }
    PlayedExtends(c.plan, before, rest, c.trace, c.script);
    InitialInv(c.start);
    RunKeeps(c.start, c.trace);
    InstallAccounting(c.start, c.trace);
    DecommissionAccounting(c.start, c.trace);
    if old(c.api.c.status.completed) {
      var after := c.trace[|before|..];
      assert before + after == c.trace;
      InstallNeverRepeated(c.start, before, after);
    }
  }
}
