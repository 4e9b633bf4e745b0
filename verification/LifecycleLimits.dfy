/**
 Where the lifecycle does less than its documentation says, with the runs that
 show it and the exact step at which it happens.
 */
module LifecycleLimits {
  import opened Lifecycle
  import opened LifecycleCalls
  import opened LifecycleInvariant
  import opened LifecycleTheorems

  // ----- The install cap is not absolute ---------------------------------------

  const Target := Machine(true, 0, true, true, false)
  const Wipe := Spec(true, false, true)
  const Waiting := Status(1, Installing, false, false, true, true, false, false, 0, 0)

  /** The install child runs; nothing has been counted yet. */
  predicate Spinning(s: Sys) {
    && s.o.c.stored && s.o.c.generation == 1 && !s.o.c.deleting && s.o.c.finalizer && s.o.c.spec == Wipe
    && s.o.c.status == Waiting && s.o.m == Target && !s.o.ownedByOther
    && s.o.install == FreshChild && s.w.at.Idle? && s.h.il.external == 0
  }

  /** The run that installs once, on a configuration and a Machine that allow it. */
  const FirstPass := [Act(Ok), Act(Ok), Act(Ok), Act(Ok), Act(Ok), Act(Ok), Act(Ok)]

  function Fresh(): Sys {
    var c := Config(true, 0, 1, false, false, Wipe, EmptyStatus);
    Sys(Objects(c, Target, false, NoChild, NoChild, NoCron),
        Worker(Idle, c, Target, c, 0, NoFlake),
        History(NoInstalls, NoRemovals, DayTwoLedger(0, true)))
  }

  lemma FirstPassInstalls()
    ensures Initial(Fresh()) && Spinning(Exec(Fresh(), FirstPass)) && Exec(Fresh(), FirstPass).h.il.created == 1
  {
    hide WorkerStep;
    var s0 := Fresh();
    var s1 := WorkerStep(s0, Ok);
    EntryCalls(s0, Ok);
    var s2 := WorkerStep(s1, Ok);
    EntryCalls(s1, Ok);
    var s3 := WorkerStep(s2, Ok);
    GateCalls(s2, Ok);
    var s4 := WorkerStep(s3, Ok);
    GateCalls(s3, Ok);
    var s5 := WorkerStep(s4, Ok);
    InstallCalls(s4, Ok);
    var s6 := WorkerStep(s5, Ok);
    InstallCalls(s5, Ok);
    var s7 := WorkerStep(s6, Ok);
    EntryCalls(s6, Ok);
    Unroll(s0, FirstPass, [s1, s2, s3, s4, s5, s6, s7]);
  }

  /** A run is the chain of its states. */
  lemma {:induction false} Unroll(s: Sys, run: seq<Label>, states: seq<Sys>)
    requires |run| == |states| > 0
    requires states[0] == Next(s, run[0])
    requires forall i :: 0 < i < |run| ==> states[i] == Next(states[i - 1], run[i])
    ensures Exec(s, run) == states[|run| - 1]
    decreases |run|
  {
    if |run| > 1 {
      assert forall i :: 0 < i < |run[1..]| ==> states[1..][i] == Next(states[1..][i - 1], run[1..][i]);
      Unroll(states[0], run[1..], states[1..]);
    } else {
      assert run[1..] == [];
    }
  }

  /** The job fails, the child is deleted, and the status write that should count it is lost. */
  const LosingPass := [Env(InstallReports(false, true)),
                       Act(Ok), Act(Ok), Act(Ok), Act(Ok), Act(Ok), Act(Ok), Act(Fail)]

  /** The deleted child goes away and the next pass installs again. */
  const NextPass := [Env(ReapInstall), Act(Ok), Act(Ok), Act(Ok), Act(Ok), Act(Ok), Act(Ok)]

  predicate Forgotten(s: Sys) {
    && s.o.c.stored && s.o.c.generation == 1 && !s.o.c.deleting && s.o.c.finalizer && s.o.c.spec == Wipe
    && s.o.c.status == Waiting && s.o.m == Target && !s.o.ownedByOther
    && s.o.install == Child(true, true, false, true) && s.w.at.Idle? && s.h.il.external == 0
  }

  lemma LosingPassForgets(s: Sys)
    requires Spinning(s)
    ensures
      var t := Exec(s, LosingPass);
      Forgotten(t) && t.h.il.created == s.h.il.created
  {
    hide WorkerStep;
    var s1 := EnvStep(s, InstallReports(false, true));
    var s2 := WorkerStep(s1, Ok);
    EntryCalls(s1, Ok);
    var s3 := WorkerStep(s2, Ok);
    GateCalls(s2, Ok);
    var s4 := WorkerStep(s3, Ok);
    GateCalls(s3, Ok);
    var s5 := WorkerStep(s4, Ok);
    InstallCalls(s4, Ok);
    var s6 := WorkerStep(s5, Ok);
    InstallCalls(s5, Ok);
    var s7 := WorkerStep(s6, Ok);
    MarkCalls(s6, Ok);
    var s8 := WorkerStep(s7, Fail);
    EntryCalls(s7, Fail);
    Unroll(s, LosingPass, [s1, s2, s3, s4, s5, s6, s7, s8]);
  }

  lemma NextPassInstallsAgain(s: Sys)
    requires Forgotten(s)
    ensures
      var t := Exec(s, NextPass);
      Spinning(t) && t.h.il.created == s.h.il.created + 1
  {
    hide WorkerStep;
    var s1 := EnvStep(s, ReapInstall);
    var s2 := WorkerStep(s1, Ok);
    EntryCalls(s1, Ok);
    var s3 := WorkerStep(s2, Ok);
    GateCalls(s2, Ok);
    var s4 := WorkerStep(s3, Ok);
    GateCalls(s3, Ok);
    var s5 := WorkerStep(s4, Ok);
    InstallCalls(s4, Ok);
    var s6 := WorkerStep(s5, Ok);
    InstallCalls(s5, Ok);
    var s7 := WorkerStep(s6, Ok);
    EntryCalls(s6, Ok);
    Unroll(s, NextPass, [s1, s2, s3, s4, s5, s6, s7]);
  }

  /**
   The retry count is committed only by the write that ends the pass. When that
   write keeps failing, a run installs any number of times with nothing counted
   and nothing deleted from outside.
   */
  lemma {:induction false} InstallCapIsNotAbsolute(n: nat) returns (s0: Sys, run: seq<Label>)
    ensures Initial(s0)
    ensures
      var t := Exec(s0, run);
      t.h.il.created == n + 1 && t.o.c.status.installRetries == 0 && t.h.il.external == 0 && Spinning(t)
  {
    if n == 0 {
      FirstPassInstalls();
      s0, run := Fresh(), FirstPass;
    } else {
      var before;
      s0, before := InstallCapIsNotAbsolute(n - 1);
      var s := Exec(s0, before);
      LosingPassForgets(s);
      var u := Exec(s, LosingPass);
      NextPassInstallsAgain(u);
      ExecConcat(s0, before, LosingPass);
      ExecConcat(s0, before + LosingPass, NextPass);
      run := before + LosingPass + NextPass;
    }
  }

  // ----- A transient error skips the decommission --------------------------------

  lemma FinalizeStrips(s: Sys, t: Sys)
    requires s.w.at.Finalize? && s.o.c.stored && s.w.wc.rv == s.o.c.rv && t == WorkerStep(s, Ok)
    ensures !t.o.c.finalizer && t.o.remove == s.o.remove && t.o.m == s.o.m
    ensures t.h.rl.created == s.h.rl.created && t.w.why == s.w.why
  {
    hide WorkerStep;
    CloseCalls(s, Ok);
  }

  lemma TwoCalls(s: Sys, r: Reply)
    ensures Exec(s, [Act(r), Act(Ok)]) == WorkerStep(WorkerStep(s, r), Ok)
  {
    var s1 := Next(s, Act(r));
    var s2 := Next(s1, Act(Ok));
    Unroll(s, [Act(r), Act(Ok)], [s1, s2]);
  }

  /** After any failed create the next call removes the finalizer and touches neither child nor Machine. */
  lemma CreateErrorFinalizes(s: Sys)
    requires s.w.at.RemCreate? && s.o.c.stored && s.w.wc.rv == s.o.c.rv
    ensures
      var t := Exec(s, [Act(Fail), Act(Ok)]);
      && !t.o.c.finalizer && t.h.rl.created == s.h.rl.created
      && t.o.remove == s.o.remove && t.o.m == s.o.m && t.w.why.CannotCreate?
  {
    hide WorkerStep;
    TwoCalls(s, Fail);
    FindCalls(s, Fail);
    var s1 := StepRemCreate(s, Fail);
    assert s1 == Refuse(s);
    FinalizeStrips(s1, WorkerStep(s1, Ok));
  }

  /** If only the answer to the create is lost, the child is created and the finalizer removed. */
  lemma LostCreateFinalizes(s: Sys)
    requires s.w.at.RemCreate? && s.o.c.stored && s.w.wc.rv == s.o.c.rv && !s.o.remove.present
    ensures
      var t := Exec(s, [Act(Lost), Act(Ok)]);
      && !t.o.c.finalizer && Live(t.o.remove) && t.h.rl.created == s.h.rl.created + 1
      && t.o.m == s.o.m && t.w.why.CannotCreate?
  {
    hide WorkerStep;
    TwoCalls(s, Lost);
    FindCalls(s, Lost);
    var s1 := StepRemCreate(s, Lost);
    assert s1.w.at.Finalize?;
    FinalizeStrips(s1, WorkerStep(s1, Ok));
  }

  // ----- A configuration without an install, applied and then deleted ---------------

  const Depart := Spec(false, true, true)

  function Departing(): Sys {
    var c := Config(true, 0, 1, false, false, Depart, EmptyStatus);
    Sys(Objects(c, Target, false, NoChild, NoChild, NoCron),
        Worker(Idle, c, Target, c, 0, NoFlake),
        History(NoInstalls, NoRemovals, DayTwoLedger(0, false)))
  }

  const Converged := Cron(true, false, false, CronReady, false, true)

  /** The first pass creates the recurring child, which then converges. */
  const CreateCron := [Act(Ok), Act(Ok), Act(Ok), Act(Ok), Act(Ok), Act(Ok), Act(Ok), Env(SetCron(Converged))]

  /** The second pass writes back to the Machine; then the user deletes the configuration. */
  const WriteItBack := [Act(Ok), Act(Ok), Act(Ok), Act(Ok), Act(Ok), Act(Ok), Act(Ok), Env(DeleteConfig)]

  /** The removal pass up to the create of the decommission child. */
  const ReachCreate := [Act(Ok), Act(Ok), Act(Ok), Act(Ok), Act(Ok), Act(Ok)]

  predicate Converging1(s: Sys) {
    && s.o.c.stored && !s.o.c.deleting && s.o.c.finalizer && s.o.c.spec == Depart && !s.o.c.status.completed
    && s.o.m == Target && !s.o.ownedByOther && s.o.cron == Converged
    && s.o.remove == NoChild && s.w.at.Idle? && s.h.rl == NoRemovals
  }

  lemma CronIsCreated()
    ensures Initial(Departing()) && Converging1(Exec(Departing(), CreateCron))
  {
    hide WorkerStep;
    var s0 := Departing();
    var s1 := WorkerStep(s0, Ok);
    EntryCalls(s0, Ok);
    var s2 := WorkerStep(s1, Ok);
    EntryCalls(s1, Ok);
    var s3 := WorkerStep(s2, Ok);
    GateCalls(s2, Ok);
    var s4 := WorkerStep(s3, Ok);
    GateCalls(s3, Ok);
    var s5 := WorkerStep(s4, Ok);
    DayTwoCalls(s4, Ok);
    var s6 := WorkerStep(s5, Ok);
    DayTwoCalls(s5, Ok);
    var s7 := WorkerStep(s6, Ok);
    EntryCalls(s6, Ok);
    var s8 := EnvStep(s7, SetCron(Converged));
    Unroll(s0, CreateCron, [s1, s2, s3, s4, s5, s6, s7, s8]);
  }

  /** Deleted by the user after the controller wrote itself to the Machine. */
  predicate DeletedApplied(s: Sys) {
    && s.o.c.stored && s.o.c.deleting && s.o.c.finalizer && s.o.c.spec == Depart
    && s.o.m == Target.(appliedHere := true, rv := 1) && s.o.cron.present && !s.o.cron.deleting
    && s.o.remove == NoChild && s.w.at.Idle? && s.h.rl == NoRemovals
  }

  lemma MachineIsWritten(s: Sys)
    requires Converging1(s)
    ensures DeletedApplied(Exec(s, WriteItBack))
  {
    hide WorkerStep;
    var s1 := WorkerStep(s, Ok);
    EntryCalls(s, Ok);
    var s2 := WorkerStep(s1, Ok);
    GateCalls(s1, Ok);
    var s3 := WorkerStep(s2, Ok);
    GateCalls(s2, Ok);
    var s4 := WorkerStep(s3, Ok);
    DayTwoCalls(s3, Ok);
    var s5 := WorkerStep(s4, Ok);
    DayTwoCalls(s4, Ok);
    var s6 := WorkerStep(s5, Ok);
    DayTwoCalls(s5, Ok);
    var s7 := WorkerStep(s6, Ok);
    EntryCalls(s6, Ok);
    var s8 := EnvStep(s7, DeleteConfig);
    Unroll(s, WriteItBack, [s1, s2, s3, s4, s5, s6, s7, s8]);
  }

  predicate BeforeCreate(s: Sys) {
    && s.w.at.RemCreate? && s.o.c.stored && s.w.wc.rv == s.o.c.rv && s.o.c.finalizer && s.o.c.spec.onRemove
    && s.o.m.stored && s.o.m.appliedHere && s.o.remove == NoChild && s.h.rl.created == 0
  }

  lemma CreateIsReached(s: Sys)
    requires DeletedApplied(s)
    ensures BeforeCreate(Exec(s, ReachCreate))
  {
    hide WorkerStep;
    var s1 := WorkerStep(s, Ok);
    EntryCalls(s, Ok);
    var s2 := WorkerStep(s1, Ok);
    RemovalCalls(s1, Ok);
    var s3 := WorkerStep(s2, Ok);
    RemovalCalls(s2, Ok);
    var s4 := WorkerStep(s3, Ok);
    RemovalCalls(s3, Ok);
    var s5 := WorkerStep(s4, Ok);
    FindCalls(s4, Ok);
    var s6 := WorkerStep(s5, Ok);
    FindCalls(s5, Ok);
    Unroll(s, ReachCreate, [s1, s2, s3, s4, s5, s6]);
  }

  /** From the start to the create, every call answered. */
  const UntilCreate := CreateCron + WriteItBack + ReachCreate

  lemma CreateIsReachable()
    ensures Initial(Departing()) && BeforeCreate(Exec(Departing(), UntilCreate))
    ensures forall l :: l in UntilCreate && l.Act? ==> l.reply.Ok?
    ensures Crash !in UntilCreate
  {
    hide WorkerStep, Exec;
    var s0 := Departing();
    CronIsCreated();
    MachineIsWritten(Exec(s0, CreateCron));
    ExecConcat(s0, CreateCron, WriteItBack);
    CreateIsReached(Exec(s0, CreateCron + WriteItBack));
    ExecConcat(s0, CreateCron + WriteItBack, ReachCreate);
  }

  /**
   One failed create, in a run from the start in which every other call is answered, ends
   in a configuration without its finalizer: the flake was never run, no decommission
   child was ever created, and the Machine still names the configuration.
   */
  lemma TransientErrorFinalizes() returns (s0: Sys, run: seq<Label>)
    ensures Initial(s0) && Crash !in run
    ensures |run| >= 2 && run[|run| - 2] == Act(Fail) && forall i :: 0 <= i < |run| && i != |run| - 2 && run[i].Act? ==> run[i].reply.Ok?
    ensures
      var before, t := Exec(s0, run[..|run| - 2]), Exec(s0, run);
      && before.o.c.finalizer && before.o.c.spec.onRemove && !t.o.c.finalizer
      && t.o.m.stored && t.o.m.appliedHere && t.o.remove == NoChild && t.h.rl.created == 0
  {
    hide WorkerStep, Exec;
    CreateIsReachable();
    s0, run := Departing(), UntilCreate + [Act(Fail), Act(Ok)];
    assert run[..|run| - 2] == UntilCreate;
    CreateErrorFinalizes(Exec(s0, UntilCreate));
    ExecConcat(s0, UntilCreate, [Act(Fail), Act(Ok)]);
    forall i | 0 <= i < |run| && i != |run| - 2 && run[i].Act?
      ensures run[i].reply.Ok?
    {
      assert i < |UntilCreate| ==> run[i] in UntilCreate;
    }
  }

  /** If only the answer to that create is lost, the child runs on without the finalizer. */
  lemma LostCreateOrphansTheRun() returns (s0: Sys, run: seq<Label>)
    ensures Initial(s0) && Crash !in run
    ensures |run| >= 2 && run[|run| - 2] == Act(Lost) && forall i :: 0 <= i < |run| && i != |run| - 2 && run[i].Act? ==> run[i].reply.Ok?
    ensures
      var t := Exec(s0, run);
      !t.o.c.finalizer && Live(t.o.remove) && t.h.rl.created == 1 && t.o.m.stored && t.o.m.appliedHere
  {
    hide WorkerStep, Exec;
    CreateIsReachable();
    s0, run := Departing(), UntilCreate + [Act(Lost), Act(Ok)];
    LostCreateFinalizes(Exec(s0, UntilCreate));
    ExecConcat(s0, UntilCreate, [Act(Lost), Act(Ok)]);
    forall i | 0 <= i < |run| && i != |run| - 2 && run[i].Act?
      ensures run[i].reply.Ok?
    {
      assert i < |UntilCreate| ==> run[i] in UntilCreate;
    }
  }

  // ----- The decommission cap is not absolute -------------------------------------------

  /** Between removal passes, with the committed count and the child as given. */
  predicate Leaving(s: Sys, retries: nat, child: Child) {
    && s.w.at.Idle? && s.o.c.stored && s.o.c.deleting && s.o.c.finalizer && s.o.c.spec == Depart
    && s.o.c.status.removeRetries == retries && s.o.m == Target && !s.o.cron.present
    && s.o.remove == child && s.h.rl.external == 0
  }

  /** The finalizer is added, the pass crashes, and the user deletes the configuration. */
  const Leave := [Act(Ok), Act(Ok), Crash, Env(DeleteConfig)]

  const CreateChild := [Act(Ok), Act(Ok), Act(Ok), Act(Ok), Act(Ok), Act(Ok), Act(Ok)]

  /** The child succeeds and is deleted, but the write that removes the finalizer fails. */
  const MissFinalize := [Env(RemoveReports(true, false)),
                         Act(Ok), Act(Ok), Act(Ok), Act(Ok), Act(Ok), Act(Fail), Env(ReapRemove)]

  lemma LeaveLeaves()
    ensures Initial(Departing()) && Leaving(Exec(Departing(), Leave), 0, NoChild)
    ensures Exec(Departing(), Leave).h.rl.created == 0
  {
    hide WorkerStep, Abandon;
    var s0 := Departing();
    var s1 := WorkerStep(s0, Ok);
    EntryCalls(s0, Ok);
    var s2 := WorkerStep(s1, Ok);
    EntryCalls(s1, Ok);
    var s3 := Abandon(s2);
    AbandonFrame(s2);
    var s4 := EnvStep(s3, DeleteConfig);
    Unroll(s0, Leave, [s1, s2, s3, s4]);
  }

  lemma ChildIsCreated(s: Sys, retries: nat)
    requires Leaving(s, retries, NoChild)
    ensures
      var t := Exec(s, CreateChild);
      Leaving(t, retries, FreshChild) && t.h.rl.created == s.h.rl.created + 1
  {
    hide WorkerStep;
    var s1 := WorkerStep(s, Ok);
    EntryCalls(s, Ok);
    var s2 := WorkerStep(s1, Ok);
    RemovalCalls(s1, Ok);
    var s3 := WorkerStep(s2, Ok);
    RemovalCalls(s2, Ok);
    var s4 := WorkerStep(s3, Ok);
    FindCalls(s3, Ok);
    var s5 := WorkerStep(s4, Ok);
    FindCalls(s4, Ok);
    var s6 := WorkerStep(s5, Ok);
    FindCalls(s5, Ok);
    var s7 := WorkerStep(s6, Ok);
    FindCalls(s6, Ok);
    Unroll(s, CreateChild, [s1, s2, s3, s4, s5, s6, s7]);
  }

  lemma FinalizeIsMissed(s: Sys, retries: nat)
    requires Leaving(s, retries, FreshChild)
    ensures
      var t := Exec(s, MissFinalize);
      Leaving(t, retries, NoChild) && t.h.rl.created == s.h.rl.created
  {
    hide WorkerStep;
    var s1 := EnvStep(s, RemoveReports(true, false));
    var s2 := WorkerStep(s1, Ok);
    EntryCalls(s1, Ok);
    var s3 := WorkerStep(s2, Ok);
    RemovalCalls(s2, Ok);
    var s4 := WorkerStep(s3, Ok);
    RemovalCalls(s3, Ok);
    var s5 := WorkerStep(s4, Ok);
    FindCalls(s4, Ok);
    var s6 := WorkerStep(s5, Ok);
    CloseCalls(s5, Ok);
    var s7 := WorkerStep(s6, Fail);
    CloseCalls(s6, Fail);
    var s8 := EnvStep(s7, ReapRemove);
    Unroll(s, MissFinalize, [s1, s2, s3, s4, s5, s6, s7, s8]);
  }

  /**
   A pass that saw its child succeed deletes it before it finalizes. When that last write
   keeps failing, a run decommissions any number of times, with every child succeeding,
   no retry counted and nothing deleted from outside.
   */
  lemma {:induction false} DecommissionCapIsNotAbsolute(n: nat) returns (s0: Sys, run: seq<Label>)
    ensures Initial(s0)
    ensures
      var t := Exec(s0, run);
      t.h.rl.created == n + 1 && t.h.rl.external == 0 && t.o.c.status.removeRetries == 0 && Leaving(t, 0, FreshChild)
  {
    hide WorkerStep, Exec;
    if n == 0 {
      s0 := Departing();
      LeaveLeaves();
      ChildIsCreated(Exec(s0, Leave), 0);
      ExecConcat(s0, Leave, CreateChild);
      run := Leave + CreateChild;
    } else {
      var before;
      s0, before := DecommissionCapIsNotAbsolute(n - 1);
      FinalizeIsMissed(Exec(s0, before), 0);
      ExecConcat(s0, before, MissFinalize);
      ChildIsCreated(Exec(s0, before + MissFinalize), 0);
      ExecConcat(s0, before + MissFinalize, CreateChild);
      run := before + MissFinalize + CreateChild;
    }
  }

  // ----- The finalizing write may undo an edit -------------------------------------------

  /** The child fails, and the pass has read the configuration and is about to count. */
  const BeginCount := [Env(RemoveReports(false, true)), Act(Ok), Act(Ok), Act(Ok), Act(Ok)]

  /** The failure is counted and the child deleted. */
  const CountIt := [Act(Ok), Act(Ok), Act(Ok), Act(Ok), Env(ReapRemove)]

  const CountAndFinalize := [Act(Ok), Act(Ok), Act(Ok), Act(Ok), Act(Ok)]

  predicate AboutToCount(s: Sys, retries: nat) {
    && s.w.at.BumpGet? && s.w.tries == 0 && s.w.wc.spec == Depart && s.o.c.spec == Depart
    && s.o.c.stored && s.o.c.deleting && s.o.c.finalizer && s.o.c.status.removeRetries == retries
    && s.o.m == Target && s.w.mach == Target && !s.o.cron.present
    && s.o.remove == Child(true, false, false, true) && s.h.rl.external == 0
  }

  lemma CountBegins(s: Sys, retries: nat)
    requires Leaving(s, retries, FreshChild)
    ensures AboutToCount(Exec(s, BeginCount), retries)
  {
    hide WorkerStep;
    var s1 := EnvStep(s, RemoveReports(false, true));
    var s2 := WorkerStep(s1, Ok);
    EntryCalls(s1, Ok);
    var s3 := WorkerStep(s2, Ok);
    RemovalCalls(s2, Ok);
    var s4 := WorkerStep(s3, Ok);
    RemovalCalls(s3, Ok);
    var s5 := WorkerStep(s4, Ok);
    FindCalls(s4, Ok);
    Unroll(s, BeginCount, [s1, s2, s3, s4, s5]);
  }

  lemma CountEnds(s: Sys, retries: nat)
    requires AboutToCount(s, retries) && retries + 1 < MaxOnRemoveRetries
    ensures Leaving(Exec(s, CountIt), retries + 1, NoChild)
  {
    hide WorkerStep;
    var s1 := WorkerStep(s, Ok);
    BumpCalls(s, Ok);
    var s2 := WorkerStep(s1, Ok);
    BumpCalls(s1, Ok);
    var s3 := WorkerStep(s2, Ok);
    BumpCalls(s2, Ok);
    var s4 := WorkerStep(s3, Ok);
    FindCalls(s3, Ok);
    var s5 := EnvStep(s4, ReapRemove);
    Unroll(s, CountIt, [s1, s2, s3, s4, s5]);
  }

  lemma ChildFails(s: Sys, retries: nat)
    requires Leaving(s, retries, FreshChild) && retries + 1 < MaxOnRemoveRetries
    ensures Leaving(Exec(s, BeginCount + CountIt), retries + 1, NoChild)
  {
    CountBegins(s, retries);
    CountEnds(Exec(s, BeginCount), retries);
    ExecConcat(s, BeginCount, CountIt);
  }

  lemma EditIsUndone(s: Sys, edited: Spec)
    requires AboutToCount(s, 2)
    ensures
      var t := Exec(EnvStep(s, EditSpec(edited)), CountAndFinalize);
      EnvStep(s, EditSpec(edited)).o.c.spec == edited && t.o.c.stored && !t.o.c.finalizer && t.o.c.spec == Depart
  {
    hide WorkerStep;
    var s0 := EnvStep(s, EditSpec(edited));
    var s1 := WorkerStep(s0, Ok);
    BumpCalls(s0, Ok);
    var s2 := WorkerStep(s1, Ok);
    BumpCalls(s1, Ok);
    var s3 := WorkerStep(s2, Ok);
    BumpCalls(s2, Ok);
    var s4 := WorkerStep(s3, Ok);
    CloseCalls(s3, Ok);
    var s5 := WorkerStep(s4, Ok);
    CloseCalls(s4, Ok);
    Unroll(s0, CountAndFinalize, [s1, s2, s3, s4, s5]);
  }

  lemma CountIsReachable() returns (s0: Sys, before: seq<Label>)
    ensures Initial(s0) && AboutToCount(Exec(s0, before), 2)
  {
    hide WorkerStep, Exec;
    s0 := Departing();
    LeaveLeaves();
    ChildIsCreated(Exec(s0, Leave), 0);
    ExecConcat(s0, Leave, CreateChild);
    var r1 := Leave + CreateChild;
    ChildFails(Exec(s0, r1), 0);
    ExecConcat(s0, r1, BeginCount + CountIt);
    var r2 := r1 + (BeginCount + CountIt);
    ChildIsCreated(Exec(s0, r2), 1);
    ExecConcat(s0, r2, CreateChild);
    var r3 := r2 + CreateChild;
    ChildFails(Exec(s0, r3), 1);
    ExecConcat(s0, r3, BeginCount + CountIt);
    var r4 := r3 + (BeginCount + CountIt);
    ChildIsCreated(Exec(s0, r4), 2);
    ExecConcat(s0, r4, CreateChild);
    var r5 := r4 + CreateChild;
    CountBegins(Exec(s0, r5), 2);
    ExecConcat(s0, r5, BeginCount);
    before := r5 + BeginCount;
  }

  /**
   A run in which the user's edit is accepted, five answered calls follow, and with the
   finalizer the edit is gone: the spec is the one from before the edit.
   */
  lemma FinalizeUndoesAnEdit(edited: Spec) returns (s0: Sys, before: seq<Label>)
    ensures Initial(s0)
    ensures
      var accepted := Exec(s0, before + [Env(EditSpec(edited))]);
      var t := Exec(s0, before + [Env(EditSpec(edited))] + CountAndFinalize);
      accepted.o.c.spec == edited && accepted.o.c.finalizer && !t.o.c.finalizer && t.o.c.spec == Depart
  {
    hide WorkerStep, Exec;
    s0, before := CountIsReachable();
    var edit := [Env(EditSpec(edited))];
    var s := Exec(s0, before);
    EditIsUndone(s, edited);
    ExecConcat(s0, before, edit);
    OneLabel(s, Env(EditSpec(edited)));
    ExecConcat(s0, before + edit, CountAndFinalize);
    assert EnvStep(s, EditSpec(edited)).o.c.finalizer;
  }

  lemma OneLabel(s: Sys, l: Label)
    ensures Exec(s, [l]) == Next(s, l)
  {
    Unroll(s, [l], [Next(s, l)]);
  }
}
