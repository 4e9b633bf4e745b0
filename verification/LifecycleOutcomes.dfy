/**
 What a whole pass comes to when no call fails: a table from the committed objects before to
 those after, in terms of the documented states only, and the proof that the calls of a pass
 add up to it.
 */
module LifecycleOutcomes {
  import opened Lifecycle
  import opened LifecycleCalls
  import opened LifecycleInvariant
  import opened LifecycleTheorems
  import opened LifecycleTermination

  // ----- A live configuration -------------------------------------------------------

  /** Somebody else owns the Machine, or it cannot be reached. */
  predicate ShutOut(o: Objects) {
    o.ownedByOther || !o.m.stored || !o.m.discoverable
  }

  predicate CanBuild(o: Objects) {
    o.m.hasKey && o.c.spec.filesSupported
  }

  predicate InstallPending(c: Config) {
    c.spec.fullInstall && !c.status.completed
  }

  predicate Shows(st: Status, before: Status, phase: Phase, applied: bool) {
    st == before.(phase := phase, applied := applied)
  }

  /** The Machine may have got a new resource version, and names this configuration or not. */
  predicate Names(m: Machine, before: Machine, here: bool) {
    m.(rv := before.rv) == before.(appliedHere := here)
  }

  /** Blocked: the day-two child is suspended, nothing else is touched. */
  predicate Blocks(o: Objects, t: Objects) {
    && Shows(t.c.status, o.c.status.(observed := o.c.generation), Blocked, false)
    && t.cron == (if o.cron.present then o.cron.(suspended := true) else o.cron)
    && t.install == o.install && t.m == o.m
  }

  /** The day-two child is there and runs, unless somebody is deleting it. */
  predicate Converges(o: Objects, t: Objects) {
    t.cron == if !o.cron.present then FreshCron
              else if o.cron.deleting then o.cron
              else o.cron.(suspended := false)
  }

  /**
   The phase tells the child's health. That a configuration is on the host is a fact about
   the Machine: it stays while convergence stalls or fails.
   */
  predicate ReportsHealth(o: Objects, base: Status, t: Objects) {
    var st, cron := base.(dayTwoRef := true), t.cron;
    var applied := base.completed || cron.everSucceeded;
    if cron.phase.CronReady? && cron.everSucceeded
    then Shows(t.c.status, st, Ready, true) && Names(t.m, o.m, true)
    else
      && t.m == o.m
      && Shows(t.c.status, st, if cron.infraStalled || cron.phase.CronFailing? then Degraded else Converging, applied)
  }

  predicate DayTwo(o: Objects, base: Status, t: Objects) {
    if CanBuild(o) then Converges(o, t) && ReportsHealth(o, base, t)
    else t.c.status == base && t.cron == o.cron && t.m == o.m
  }

  /** The install child, while a full install is pending. */
  predicate Installs(o: Objects, base: Status, t: Objects) {
    var job, st := o.install, base.(installRef := true);
    if !CanBuild(o) then t.c.status == base && t.install == job && t.cron == o.cron && t.m == o.m
    else if job.present && job.succeeded then
      // Completion is recorded on the committed status; what the pass had observed is dropped.
      t.install == job.(deleting := true) && DayTwo(o, o.c.status.(completed := true, installRef := false), t)
    else
      && t.cron == o.cron && t.m == o.m
      && (if !job.present then
            t.install == FreshChild && Shows(t.c.status, st, Installing, false)
          else if !job.failed || job.deleting then
            t.install == job && Shows(t.c.status, st, Installing, false)
          else if base.installRetries >= 3 then
            t.install == job && Shows(t.c.status, st, Degraded, false)
          else
            && t.install == job.(deleting := true)
            && Shows(t.c.status, st.(installRetries := base.installRetries + 1), Installing, false))
  }

  predicate LiveOutcome(o: Objects, t: Objects) {
    var base := o.c.status.(observed := o.c.generation, target := true);
    && t.c.stored && !t.c.deleting && t.c.finalizer && t.c.spec == o.c.spec && t.c.generation == o.c.generation
    && t.ownedByOther == o.ownedByOther && t.remove == o.remove
    && (if ShutOut(o) then Blocks(o, t)
        else if InstallPending(o.c) then Installs(o, base, t)
        else t.install == o.install && DayTwo(o, base, t))
  }

  // ----- A deleted configuration -------------------------------------------------------------

  predicate LetGo(o: Objects, t: Objects, st: Status) {
    !t.c.finalizer && t.c.status == st
  }

  predicate Kept(o: Objects, t: Objects, st: Status) {
    t.c.finalizer && t.c.status == st && t.m == o.m
  }

  /** The decommission child, where there is a flake to run and a Machine to run it on. */
  predicate Decommissions(o: Objects, t: Objects) {
    var job, st := o.remove, o.c.status;
    var waiting := st.(removeRef := true, phase := Removing);
    var counted := st.(removeRetries := st.removeRetries + 1, phase := Removing);
    if !job.present then
      if CanBuild(o) then t.remove == FreshChild && Kept(o, t, waiting)
      else t.remove == job && LetGo(o, t, st) && t.m == o.m
    else if job.succeeded then
      t.remove == job.(deleting := true) && LetGo(o, t, st) && Names(t.m, o.m, false)
    else if !job.failed then
      t.remove == job && Kept(o, t, waiting)
    else
      && t.remove == job.(deleting := true)
      && (if job.deleting then
            if st.removeRetries >= 3 then LetGo(o, t, st) && Names(t.m, o.m, false)
            else Kept(o, t, waiting)
          else if counted.removeRetries >= 3 then LetGo(o, t, counted) && Names(t.m, o.m, false)
          else Kept(o, t, counted))
  }

  predicate RemovalOutcome(o: Objects, t: Objects) {
    && t.c.stored && t.c.deleting && t.c.spec == o.c.spec && t.c.generation == o.c.generation
    && t.ownedByOther == o.ownedByOther && t.install == o.install
    && t.cron == (if o.cron.present then o.cron.(deleting := true) else o.cron)
    && (if !o.c.spec.onRemove || !o.m.stored then
          && t.remove == o.remove && LetGo(o, t, o.c.status)
          && (if o.m.stored then Names(t.m, o.m, false) else t.m == o.m)
        else Decommissions(o, t))
  }

  // ----- The calls of a live pass ---------------------------------------------------------------

  /** The copy is of the committed object. */
  predicate UpToDate(s: Sys) {
    s.o.c.stored && s.w.wc.rv == s.o.c.rv
  }

  /** Only the status of the configuration and the listed objects have changed. */
  predicate OnlyStatus(c: Config, before: Config) {
    c.(rv := before.rv, status := before.status) == before
  }

  lemma FinalEnds(s: Sys)
    requires s.w.at.FinalWrite? && UpToDate(s)
    ensures Drain(s).o == s.o.(c := StoreStatus(s.o.c, s.w.wc.status)) && Drain(s).w.at.Idle?
  {
    var t := WorkerStep(s, Ok);
    EntryCalls(s, Ok);
    assert Drain(s) == Drain(t) == t;
  }

  lemma SuspendEnds(s: Sys)
    requires s.w.at.SuspendGet? && UpToDate(s)
    ensures
      var cron := if s.o.cron.present then s.o.cron.(suspended := true) else s.o.cron;
      Drain(s).o == s.o.(c := StoreStatus(s.o.c, s.w.wc.status), cron := cron) && Drain(s).w.at.Idle?
  {
    hide WorkerStep;
    var t := WorkerStep(s, Ok);
    GateCalls(s, Ok);
    assert Drain(s) == Drain(t);
    if t.w.at.SuspendWrite? {
      var u := WorkerStep(t, Ok);
      GateCalls(t, Ok);
      assert Drain(t) == Drain(u);
      FinalEnds(u);
    } else {
      FinalEnds(t);
    }
  }

  lemma WriteBackEnds(s: Sys)
    requires s.w.at.WriteBack? && UpToDate(s) && s.o.m.stored && s.w.mach.rv == s.o.m.rv
    ensures Drain(s).o == s.o.(c := StoreStatus(s.o.c, s.w.wc.status), m := StoreApplied(s.o.m, true))
  {
    hide WorkerStep;
    var u := WorkerStep(s, Ok);
    DayTwoCalls(s, Ok);
    assert Drain(s) == Drain(u);
    FinalEnds(u);
  }

  lemma HealthObserved(s: Sys, cron: Cron, t: Sys)
    requires t == ObserveDayTwo(s, cron)
    ensures t.o == s.o && t.w.mach == s.w.mach && t.w.wc.rv == s.w.wc.rv && (t.w.at.WriteBack? || t.w.at.FinalWrite?)
  {
  }

  lemma HealthReported(s: Sys, cron: Cron, t: Sys, u: Objects)
    requires t == ObserveDayTwo(s, cron) && s.o.cron == cron && u.cron == cron && u.c.status == t.w.wc.status
    requires u.m == if t.w.at.WriteBack? then StoreApplied(s.o.m, true) else s.o.m
    ensures ReportsHealth(s.o, s.w.wc.status, u)
  {
  }

  lemma HealthEnds(s: Sys, cron: Cron, t: Sys)
    requires UpToDate(s) && s.o.cron == cron && t == ObserveDayTwo(s, cron)
    requires s.o.m.stored && s.w.mach.rv == s.o.m.rv
    ensures
      var u := Drain(t).o;
      ReportsHealth(s.o, s.w.wc.status, u) && u == s.o.(c := u.c, m := u.m) && u.c == StoreStatus(s.o.c, u.c.status)
  {
    hide WorkerStep, Drain, ObserveDayTwo, ReportsHealth;
    HealthObserved(s, cron, t);
    if t.w.at.WriteBack? { WriteBackEnds(t); } else { FinalEnds(t); }
    HealthReported(s, cron, t, Drain(t).o);
  }

  /** From the first call of the day-two branch. */
  lemma DayTwoEnds(s: Sys)
    requires s.w.at.DayTwoGet? && UpToDate(s) && s.o.m.stored && s.w.mach.rv == s.o.m.rv
    ensures
      var u := Drain(s).o;
      && Converges(s.o, u) && ReportsHealth(s.o, s.w.wc.status, u)
      && u == s.o.(c := u.c, m := u.m, cron := u.cron) && u.c == StoreStatus(s.o.c, u.c.status)
  {
    hide WorkerStep, ObserveDayTwo, ReportsHealth;
    var t := WorkerStep(s, Ok);
    DayTwoCalls(s, Ok);
    assert Drain(s) == Drain(t);
    if s.o.cron.present && s.o.cron.deleting {
      HealthEnds(s, s.o.cron, t);
    } else {
      var u := WorkerStep(t, Ok);
      DayTwoCalls(t, Ok);
      assert Drain(t) == Drain(u);
      EnsureEnds(t, u);
    }
  }

  lemma HealthAlike(o: Objects, p: Objects, base: Status, t: Objects)
    requires ReportsHealth(o, base, t) && p == o.(cron := p.cron)
    ensures ReportsHealth(p, base, t)
  {
  }

  lemma EnsureEnds(t: Sys, u: Sys)
    requires UpToDate(t) && t.o.m.stored && t.w.mach.rv == t.o.m.rv
    requires (t.w.at.DayTwoCreate? && !t.o.cron.present && u == StepDayTwoCreate(t, Ok))
          || (t.w.at.DayTwoUpdate? && t.o.cron.present && !t.o.cron.deleting && u == StepDayTwoUpdate(t, Ok))
    ensures
      var v := Drain(u).o;
      && Converges(t.o, v) && ReportsHealth(t.o, t.w.wc.status, v)
      && v == t.o.(c := v.c, m := v.m, cron := v.cron) && v.c == StoreStatus(t.o.c, v.c.status)
  {
    hide Drain, ObserveDayTwo, ReportsHealth;
    var cron := if t.o.cron.present then t.o.cron.(suspended := false) else FreshCron;
    var put := PutCron(t, cron);
    var made := if t.o.cron.present then put else put.(h := t.h.(dl := t.h.dl.(created := t.h.dl.created + 1)));
    assert u == ObserveDayTwo(made, cron);
    HealthEnds(made, cron, u);
    HealthAlike(made.o, t.o, t.w.wc.status, Drain(u).o);
  }

  // ----- The install branch -----------------------------------------------------------------

  /** From the write that commits completion on. */
  lemma MarkEnds(s: Sys)
    requires s.w.at.MarkGet? && UpToDate(s) && s.o.m.stored && s.w.mach.rv == s.o.m.rv && s.o.install.present
    requires Buildable(s.w.wc, s.w.mach)
    ensures
      var u, base := Drain(s).o, s.o.c.status.(completed := true, installRef := false);
      && Converges(s.o, u) && ReportsHealth(s.o, base, u)
      && u == s.o.(c := u.c, m := u.m, cron := u.cron, install := s.o.install.(deleting := true))
      && OnlyStatus(u.c, s.o.c)
  {
    hide WorkerStep, ReportsHealth, ObserveDayTwo;
    var t := WorkerStep(s, Ok);
    MarkCalls(s, Ok);
    var u := WorkerStep(t, Ok);
    MarkCalls(t, Ok);
    assert Drain(s) == Drain(t) && Drain(t) == Drain(u);
    assert u == Marked(t);
    var v := WorkerStep(u, Ok);
    MarkCalls(u, Ok);
    assert Drain(u) == Drain(v);
    DayTwoEnds(v);
    HealthElsewhere(v.o, s.o, v.w.wc.status, Drain(v).o);
  }

  lemma HealthElsewhere(o: Objects, p: Objects, base: Status, t: Objects)
    requires ReportsHealth(o, base, t) && p.m == o.m
    ensures ReportsHealth(p, base, t)
  {
  }

  predicate Seen(s: Sys) {
    UpToDate(s) && s.o.m.stored && s.w.mach == s.o.m && CanBuild(s.o) && s.w.wc.spec == s.o.c.spec
  }

  /** Once the install child has been observed. */
  lemma ObservedEnds(s: Sys, job: Child, t: Sys)
    requires Seen(s) && s.o.install == job && job.present && t == ObserveInstall(s, job)
    requires !(job.succeeded || (job.failed && !job.deleting && s.w.wc.status.installRetries < MaxInstallRetries))
    ensures
      var u := Drain(t).o;
      && u == s.o.(c := StoreStatus(s.o.c, t.w.wc.status))
      && Shows(t.w.wc.status, s.w.wc.status.(installRef := true), if job.failed && !job.deleting then Degraded else Installing, false)
  {
    hide WorkerStep, Drain;
    FinalEnds(t);
  }

  lemma FailureEnds(s: Sys, job: Child, t: Sys)
    requires Seen(s) && s.o.install == job && job.present && t == ObserveInstall(s, job)
    requires !job.succeeded && job.failed && !job.deleting && s.w.wc.status.installRetries < MaxInstallRetries
    ensures
      var u, st := Drain(t).o, s.w.wc.status.(installRef := true);
      && u == s.o.(c := StoreStatus(s.o.c, u.c.status), install := job.(deleting := true))
      && Shows(u.c.status, st.(installRetries := st.installRetries + 1), Installing, false)
  {
    hide WorkerStep;
    assert t.w.at.InstallDelete? && t.o == s.o && t.w.wc.rv == s.w.wc.rv;
    var v := WorkerStep(t, Ok);
    MarkCalls(t, Ok);
    assert Drain(t) == Drain(v);
    FinalEnds(v);
  }

  /** What the branch does once the child is there. */
  lemma JobEnds(s: Sys, job: Child, t: Sys)
    requires Seen(s) && s.o.install == job && job.present && t == ObserveInstall(s, job)
    ensures
      var u := Drain(t).o;
      && Installs(s.o, s.w.wc.status, u)
      && u == s.o.(c := u.c, m := u.m, cron := u.cron, install := u.install)
      && OnlyStatus(u.c, s.o.c)
  {
    hide WorkerStep, Drain, ReportsHealth;
    if job.succeeded {
      assert t.w.at.MarkGet? && t.o == s.o && t.w.mach == s.w.mach && t.w.wc.rv == s.w.wc.rv && t.w.wc.spec == s.w.wc.spec;
      MarkEnds(t);
    } else if job.failed && !job.deleting && s.w.wc.status.installRetries < MaxInstallRetries {
      FailureEnds(s, job, t);
    } else {
      ObservedEnds(s, job, t);
    }
  }

  lemma InstallEnds(s: Sys)
    requires s.w.at.InstallGet? && Seen(s)
    ensures
      var u := Drain(s).o;
      && Installs(s.o, s.w.wc.status, u)
      && u == s.o.(c := u.c, m := u.m, cron := u.cron, install := u.install) && OnlyStatus(u.c, s.o.c)
  {
    hide WorkerStep, ObserveInstall, Installs;
    var t := WorkerStep(s, Ok);
    InstallCalls(s, Ok);
    assert Drain(s) == Drain(t);
    if !s.o.install.present {
      CreateEnds(t);
    } else if s.o.install.deleting {
      JobEnds(s, s.o.install, t);
    } else {
      var u := WorkerStep(t, Ok);
      InstallCalls(t, Ok);
      assert Drain(t) == Drain(u);
      JobEnds(t, t.o.install, u);
    }
  }

  lemma CreateEnds(s: Sys)
    requires s.w.at.InstallCreate? && Seen(s) && !s.o.install.present
    ensures
      var u := Drain(s).o;
      && Installs(s.o, s.w.wc.status, u)
      && u == s.o.(c := u.c, m := u.m, cron := u.cron, install := u.install) && OnlyStatus(u.c, s.o.c)
  {
    hide WorkerStep, ObserveInstall;
    var t := WorkerStep(s, Ok);
    InstallCalls(s, Ok);
    assert Drain(s) == Drain(t);
    var made := SetInstall(s, FreshChild, s.h.il.(created := s.h.il.created + 1));
    assert t == ObserveInstall(made, FreshChild);
    ObservedEnds(made, FreshChild, t);
  }

  // ----- The gates --------------------------------------------------------------------------

  /** The copy is the committed object with the generation observed. */
  predicate Entered(s: Sys) {
    s.w.at.ListOwner? && s.o.c.stored && s.o.c.finalizer && !s.o.c.deleting && s.w.wc == Observed(s.o.c)
  }

  lemma BlockEnds(s: Sys)
    requires s.w.at.SuspendGet? && s.o.c.stored && s.w.wc == SetBlocked(Observed(s.o.c))
    ensures var u := Drain(s).o; Blocks(s.o, u) && u == s.o.(c := u.c, cron := u.cron) && OnlyStatus(u.c, s.o.c)
  {
    hide Drain;
    SuspendEnds(s);
  }

  /** The branch chosen for a reachable Machine. */
  lemma BranchChosen(s: Sys, t: Sys)
    requires s.w.at.GetMachine? && s.o.m.stored && s.o.m.discoverable && s.w.wc == Observed(s.o.c) && t == StepGetMachine(s, Ok)
    ensures t.o == s.o && t.w.mach == s.o.m && t.w.wc.rv == s.o.c.rv && t.w.wc.spec == s.o.c.spec
    ensures t.w.wc.status == s.o.c.status.(observed := s.o.c.generation, target := true)
    ensures t.w.at == if !CanBuild(s.o) then FinalWrite else if InstallPending(s.o.c) then InstallGet else DayTwoGet
  {
  }

  lemma BranchEnds(s: Sys)
    requires s.w.at.GetMachine? && s.o.m.stored && s.o.m.discoverable && s.o.c.stored && s.w.wc == Observed(s.o.c)
    ensures
      var u, base := Drain(s).o, s.o.c.status.(observed := s.o.c.generation, target := true);
      && (if InstallPending(s.o.c) then Installs(s.o, base, u) else u.install == s.o.install && DayTwo(s.o, base, u))
      && u == s.o.(c := u.c, m := u.m, cron := u.cron, install := u.install) && OnlyStatus(u.c, s.o.c)
  {
    var t := WorkerStep(s, Ok);
    GateCalls(s, Ok);
    assert Drain(s) == Drain(t);
    BranchChosen(s, t);
    hide WorkerStep, Installs, ReportsHealth, StepGetMachine, Drain;
    if t.w.at.InstallGet? {
      InstallEnds(t);
    } else if t.w.at.DayTwoGet? {
      DayTwoEnds(t);
    } else {
      FinalEnds(t);
      UnbuildableInstalls(s.o, t.w.wc.status, Drain(t).o);
    }
  }

  lemma UnbuildableInstalls(o: Objects, base: Status, t: Objects)
    requires !CanBuild(o) && t == o.(c := t.c) && t.c.status == base
    ensures Installs(o, base, t) && DayTwo(o, base, t)
  {
  }

  lemma GatesEnd(s: Sys)
    requires Entered(s)
    ensures LiveOutcome(s.o, Drain(s).o)
  {
    hide WorkerStep, Installs, ReportsHealth, DayTwo;
    var t := WorkerStep(s, Ok);
    GateCalls(s, Ok);
    assert Drain(s) == Drain(t);
    if t.w.at.SuspendGet? {
      BlockEnds(t);
    } else if !s.o.m.stored || !s.o.m.discoverable {
      var u := WorkerStep(t, Ok);
      GateCalls(t, Ok);
      assert Drain(t) == Drain(u);
      BlockEnds(u);
    } else {
      BranchEnds(t);
    }
  }

  /** An error-free pass over a live configuration comes to the outcome of the table. */
  lemma LivePass(s: Sys)
    requires s.w.at.Idle? && s.o.c.stored && !s.o.c.deleting
    ensures LiveOutcome(s.o, Pass(s).o)
  {
    hide WorkerStep, Installs, ReportsHealth, DayTwo, Blocks;
    var t := WorkerStep(s, Ok);
    EntryCalls(s, Ok);
    if t.w.at.AddFinalizer? {
      var u := WorkerStep(t, Ok);
      EntryCalls(t, Ok);
      assert Drain(t) == Drain(u);
      GatesEnd(u);
      FinalizerAside(s.o, u.o, Drain(u).o);
    } else {
      GatesEnd(t);
    }
  }

  lemma FinalizerAside(o: Objects, p: Objects, t: Objects)
    requires p == o.(c := o.c.(finalizer := true, rv := p.c.rv)) && LiveOutcome(p, t)
    ensures LiveOutcome(o, t)
  {
  }

  // ----- The calls of a removal pass ------------------------------------------------------------

  /** A removal pass works on the committed object and has read the stored Machine. */
  predicate InHand(s: Sys) {
    && s.o.c.stored && s.o.c.deleting && s.o.c.finalizer
    && s.w.wc.rv == s.o.c.rv && s.w.wc.spec == s.o.c.spec
  }

  lemma FinalizeEnds(s: Sys)
    requires s.w.at.Finalize? && InHand(s)
    ensures
      Drain(s).o == s.o.(c := s.o.c.(finalizer := false, rv := s.o.c.rv + 1))
  {
    var t := WorkerStep(s, Ok);
    CloseCalls(s, Ok);
    assert Drain(s) == Drain(t) == t;
  }

  lemma DeleteFinalEnds(s: Sys)
    requires s.w.at.RemDeleteFinal? && InHand(s)
    ensures
      var child := if Live(s.o.remove) then s.o.remove.(deleting := true) else s.o.remove;
      Drain(s).o == s.o.(c := s.o.c.(finalizer := false, rv := s.o.c.rv + 1), remove := child)
  {
    hide WorkerStep;
    var t := WorkerStep(s, Ok);
    CloseCalls(s, Ok);
    assert Drain(s) == Drain(t);
    FinalizeEnds(t);
  }

  /** Behind the clearing of the Machine. */
  lemma AfterClearEnds(s: Sys, t: Sys, why: Reason)
    requires InHand(s) && t == AfterClear(s, why)
    ensures
      var child := if Terminal(why) && Live(s.o.remove) then s.o.remove.(deleting := true) else s.o.remove;
      Drain(t).o == s.o.(c := s.o.c.(finalizer := false, rv := s.o.c.rv + 1), remove := child)
  {
    hide WorkerStep, Drain;
    if Terminal(why) { DeleteFinalEnds(t); } else { FinalizeEnds(t); }
  }

  lemma ClearEnds(s: Sys, t: Sys, why: Reason)
    requires InHand(s) && s.o.m.stored && s.w.mach == s.o.m && t == ClearMachine(s, why)
    ensures
      var u := Drain(t).o;
      var child := if Terminal(why) && Live(s.o.remove) then s.o.remove.(deleting := true) else s.o.remove;
      && u == s.o.(c := s.o.c.(finalizer := false, rv := s.o.c.rv + 1), m := u.m, remove := child)
      && Names(u.m, s.o.m, false)
  {
    hide WorkerStep, AfterClear;
    if s.w.mach.appliedHere {
      assert t.w.at.RemClear? && t.o == s.o;
      var u := WorkerStep(t, Ok);
      CloseCalls(t, Ok);
      assert Drain(t) == Drain(u);
      var cleared := PutMachine(t, StoreApplied(t.o.m, false));
      assert u == AfterClear(cleared, why);
      AfterClearEnds(cleared, u, why);
    } else {
      AfterClearEnds(s, t, why);
    }
  }

  lemma StatusEnds(s: Sys)
    requires s.w.at.RemStatus? && InHand(s)
    ensures Drain(s).o == s.o.(c := StoreStatus(s.o.c, s.w.wc.status))
  {
    var t := WorkerStep(s, Ok);
    FindCalls(s, Ok);
    assert Drain(s) == Drain(t) == t;
  }

  predicate Reading(s: Sys) {
    InHand(s) && s.o.m.stored && s.w.mach == s.o.m && s.o.c.spec.onRemove
  }

  /** Nothing but the status and the finalizer has changed. */
  predicate OnlyClosed(c: Config, before: Config) {
    c.(finalizer := before.finalizer, rv := before.rv, status := before.status) == before
  }

  lemma RequestEnds(s: Sys)
    requires s.w.at.RemFind? && Reading(s) && !s.o.remove.present && s.w.wc.status == s.o.c.status
    ensures
      var u := Drain(s).o;
      Decommissions(s.o, u) && u == s.o.(c := u.c, m := u.m, remove := u.remove) && OnlyClosed(u.c, s.o.c)
  {
    hide WorkerStep;
    var t := WorkerStep(s, Ok);
    FindCalls(s, Ok);
    assert Drain(s) == Drain(t);
    if t.w.at.RemCreateGet? {
      var u := WorkerStep(t, Ok);
      FindCalls(t, Ok);
      assert Drain(t) == Drain(u);
      var v := WorkerStep(u, Ok);
      FindCalls(u, Ok);
      assert Drain(u) == Drain(v);
      StatusEnds(v);
    } else {
      FinalizeEnds(t);
    }
  }

  /** At the cap the object is given up, below it the status says that the removal goes on. */
  lemma CapEnds(s: Sys, t: Sys)
    requires Reading(s) && t == CheckCap(s) && s.o.remove.present && s.o.remove.deleting
    ensures
      var u, retries := Drain(t).o, s.w.wc.status.removeRetries;
      && u == s.o.(c := u.c, m := u.m) && OnlyClosed(u.c, s.o.c)
      && (if retries >= MaxOnRemoveRetries then LetGo(s.o, u, s.o.c.status) && Names(u.m, s.o.m, false)
          else Kept(s.o, u, s.w.wc.status.(phase := Removing)))
  {
    hide WorkerStep, Drain;
    if s.w.wc.status.removeRetries >= MaxOnRemoveRetries { ClearEnds(s, t, GaveUp); } else { StatusEnds(t); }
  }

  lemma CountEnds(s: Sys)
    requires s.w.at.BumpGet? && Reading(s) && Live(s.o.remove)
    ensures
      var u, st := Drain(s).o, s.o.c.status;
      var counted := st.(removeRetries := st.removeRetries + 1, phase := Removing);
      && u == s.o.(c := u.c, m := u.m, remove := s.o.remove.(deleting := true)) && OnlyClosed(u.c, s.o.c)
      && (if counted.removeRetries >= MaxOnRemoveRetries then LetGo(s.o, u, counted) && Names(u.m, s.o.m, false)
          else Kept(s.o, u, counted))
  {
    hide WorkerStep, CheckCap;
    var t := WorkerStep(s, Ok);
    BumpCalls(s, Ok);
    var u := WorkerStep(t, Ok);
    BumpCalls(t, Ok);
    assert Drain(s) == Drain(t) && Drain(t) == Drain(u);
    assert u == Bumped(t);
    var v := WorkerStep(u, Ok);
    BumpCalls(u, Ok);
    assert Drain(u) == Drain(v);
    var d := FailedDeleted(u);
    assert v == CheckCap(d) && d.w == u.w && d.o == u.o.(remove := u.o.remove.(deleting := true));
    CapEnds(d, v);
  }

  lemma FindEnds(s: Sys)
    requires s.w.at.RemFind? && Reading(s) && s.w.wc.status == s.o.c.status
    ensures
      var u := Drain(s).o;
      Decommissions(s.o, u) && u == s.o.(c := u.c, m := u.m, remove := u.remove) && OnlyClosed(u.c, s.o.c)
  {
    if !s.o.remove.present { RequestEnds(s); } else { ObservedRemoveEnds(s); }
  }

  lemma ObservedRemoveEnds(s: Sys)
    requires s.w.at.RemFind? && Reading(s) && s.w.wc.status == s.o.c.status && s.o.remove.present
    ensures
      var u := Drain(s).o;
      Decommissions(s.o, u) && u == s.o.(c := u.c, m := u.m, remove := u.remove) && OnlyClosed(u.c, s.o.c)
  {
    var t := WorkerStep(s, Ok);
    FindCalls(s, Ok);
    assert Drain(s) == Drain(t);
    hide WorkerStep, Drain, ObserveRemove, Decommissions;
    var noted := GotoWith(s, RemFind, s.w.wc.(status := s.w.wc.status.(removeRef := true)));
    assert t == ObserveRemove(noted);
    if s.o.remove.succeeded { SuccessEnds(s, noted, t); } else { UnsuccessfulEnds(s, noted, t); }
  }

  lemma SuccessEnds(s: Sys, noted: Sys, t: Sys)
    requires Reading(noted) && s.o == noted.o && s.o.remove.present && s.o.remove.succeeded && t == ObserveRemove(noted)
    ensures
      var u := Drain(t).o;
      Decommissions(s.o, u) && u == s.o.(c := u.c, m := u.m, remove := u.remove) && OnlyClosed(u.c, s.o.c)
  {
    hide Drain, ClearMachine;
    var seen := noted.(h := noted.h.(rl := noted.h.rl.(successSeen := true)));
    ClearEnds(seen, t, Succeeded);
  }

  lemma UnsuccessfulEnds(s: Sys, noted: Sys, t: Sys)
    requires Reading(noted) && s.o == noted.o && s.o.remove.present && !s.o.remove.succeeded && t == ObserveRemove(noted)
    requires noted.w.wc.status == s.o.c.status.(removeRef := true)
    ensures
      var u := Drain(t).o;
      Decommissions(s.o, u) && u == s.o.(c := u.c, m := u.m, remove := u.remove) && OnlyClosed(u.c, s.o.c)
  {
    hide Drain, CheckCap;
    if s.o.remove.failed {
      if s.o.remove.deleting { CapEnds(noted, t); } else { CountEnds(t); }
    } else {
      StatusEnds(t);
    }
  }

  lemma MachineReadEnds(s: Sys)
    requires s.w.at.RemGetMachine? && InHand(s) && s.w.wc == s.o.c
    ensures
      var u := Drain(s).o;
      && u == s.o.(c := u.c, m := u.m, remove := u.remove) && OnlyClosed(u.c, s.o.c)
      && (if !s.o.c.spec.onRemove || !s.o.m.stored then
            && u.remove == s.o.remove && LetGo(s.o, u, s.o.c.status)
            && (if s.o.m.stored then Names(u.m, s.o.m, false) else u.m == s.o.m)
          else Decommissions(s.o, u))
  {
    var t := WorkerStep(s, Ok);
    RemovalCalls(s, Ok);
    assert Drain(s) == Drain(t);
    hide WorkerStep, Drain, ClearMachine, Decommissions;
    if !s.o.m.stored {
      FinalizeEnds(t);
    } else if !s.o.c.spec.onRemove {
      var read := s.(w := s.w.(mach := s.o.m));
      assert t == ClearMachine(read, NoFlake);
      ClearEnds(read, t, NoFlake);
    } else {
      FindEnds(t);
    }
  }

  /** An error-free pass over a deleted configuration comes to the outcome of the table. */
  lemma RemovalPass(s: Sys)
    requires s.w.at.Idle? && s.o.c.stored && s.o.c.deleting && s.o.c.finalizer
    ensures RemovalOutcome(s.o, Pass(s).o)
  {
    hide WorkerStep, Decommissions;
    var t := WorkerStep(s, Ok);
    EntryCalls(s, Ok);
    var u := WorkerStep(t, Ok);
    RemovalCalls(t, Ok);
    assert Drain(t) == Drain(u);
    if u.w.at.RemCronDelete? {
      var v := WorkerStep(u, Ok);
      RemovalCalls(u, Ok);
      assert Drain(u) == Drain(v);
      MachineReadEnds(v);
      if Decommissions(v.o, Drain(v).o) { CronAside(s.o, v.o, Drain(v).o); }
    } else {
      MachineReadEnds(u);
    }
  }

  lemma CronAside(o: Objects, p: Objects, t: Objects)
    requires p == o.(cron := p.cron) && Decommissions(p, t)
    ensures Decommissions(o, t)
  {
  }

  // ----- Calls that are not answered ---------------------------------------------------------------

  /** A call that fails, or is refused as a conflict, changes nothing; one whose answer is lost has done its work. */
  lemma RepliesAct(s: Sys)
    ensures WorkerStep(s, Fail).o == s.o && WorkerStep(s, Conflict).o == s.o
    ensures WorkerStep(s, Lost).o == WorkerStep(s, Ok).o
  {
    if InRemoval(s.w.at) { RemovalRepliesAct(s); } else { LiveRepliesAct(s); }
  }

  lemma LiveRepliesAct(s: Sys)
    requires !InRemoval(s.w.at)
    ensures WorkerStep(s, Fail).o == s.o && WorkerStep(s, Conflict).o == s.o
    ensures WorkerStep(s, Lost).o == WorkerStep(s, Ok).o
  {
  }

  lemma RemovalRepliesAct(s: Sys)
    requires InRemoval(s.w.at)
    ensures WorkerStep(s, Fail).o == s.o && WorkerStep(s, Conflict).o == s.o
    ensures WorkerStep(s, Lost).o == WorkerStep(s, Ok).o
  {
  }

  /** The calls of a live pass between its first read and its final write. */
  predicate InBranches(at: Call) {
    !InRemoval(at) && !at.Idle? && !at.AddFinalizer? && !at.FinalWrite?
  }

  /** Trouble in a live pass is reported by the final write; in a removal it ends the pass, except where it is only logged. */
  lemma FailureLeads(s: Sys)
    ensures InBranches(s.w.at) ==> WorkerStep(s, Fail).w == s.w.(at := FinalWrite)
    ensures s.w.at.Idle? || s.w.at.AddFinalizer? || s.w.at.FinalWrite? ==> WorkerStep(s, Fail).w.at.Idle?
    ensures s.w.at.RemCronGet? || s.w.at.RemCronDelete? ==> WorkerStep(s, Fail).w == s.w.(at := RemGetMachine)
    ensures s.w.at.RemCreateGet? || s.w.at.RemCreate? ==> WorkerStep(s, Fail).w == s.w.(at := Finalize, why := CannotCreate)
    ensures
      InRemoval(s.w.at) && !s.w.at.RemCronGet? && !s.w.at.RemCronDelete? && !s.w.at.RemCreateGet? && !s.w.at.RemCreate? ==>
        WorkerStep(s, Fail).w.at.Idle?
  {
    if InRemoval(s.w.at) { RemovalFailureLeads(s); }
  }

  lemma RemovalFailureLeads(s: Sys)
    requires InRemoval(s.w.at)
    ensures s.w.at.RemCronGet? || s.w.at.RemCronDelete? ==> WorkerStep(s, Fail).w == s.w.(at := RemGetMachine)
    ensures s.w.at.RemCreateGet? || s.w.at.RemCreate? ==> WorkerStep(s, Fail).w == s.w.(at := Finalize, why := CannotCreate)
    ensures
      !s.w.at.RemCronGet? && !s.w.at.RemCronDelete? && !s.w.at.RemCreateGet? && !s.w.at.RemCreate? ==>
        WorkerStep(s, Fail).w.at.Idle?
  {
  }

  /** Reads that are answered and writes that are refused as conflicts, `k` times over. */
  function Conflicts(k: nat): seq<Label> {
    if k == 0 then [] else Conflicts(k - 1) + [Act(Ok), Act(Conflict)]
  }

  /** The retry closures give a write five attempts, each on a fresh read. */
  lemma {:induction false} ConflictsAreRetried(s: Sys, k: nat)
    requires (s.w.at.MarkGet? || s.w.at.BumpGet?) && s.w.tries == 0 && s.o.c.stored && k <= 5
    ensures
      var t := Exec(s, Conflicts(k));
      && t.o == s.o
      && (k < 5 ==> t.w.at == s.w.at && t.w.tries == k && t.w.wc == s.w.wc)
      && (k == 5 ==> t.w.at == if s.w.at.MarkGet? then FinalWrite else Idle)
  {
    hide WorkerStep;
    if k > 0 {
      ConflictsAreRetried(s, k - 1);
      var t := Exec(s, Conflicts(k - 1));
      ExecConcat(s, Conflicts(k - 1), [Act(Ok), Act(Conflict)]);
      OneConflict(t);
    }
  }

  lemma OneConflict(t: Sys)
    requires (t.w.at.MarkGet? || t.w.at.BumpGet?) && t.o.c.stored
    ensures
      var u := Exec(t, [Act(Ok), Act(Conflict)]);
      && u.o == t.o
      && (if t.w.tries + 1 < 5 then u.w.at == t.w.at && u.w.tries == t.w.tries + 1 && u.w.wc == t.w.wc
          else u.w.at == if t.w.at.MarkGet? then FinalWrite else Idle)
  {
    var u := WorkerStep(t, Ok);
    assert [Act(Ok), Act(Conflict)][1..] == [Act(Conflict)] && [Act(Conflict)][1..] == [];
    assert Exec(t, [Act(Ok), Act(Conflict)]) == Exec(u, [Act(Conflict)]) == WorkerStep(u, Conflict);
  }
}
