/**
 What the lifecycle promises over whole runs: the destructive install is never
 repeated once committed, every child is accounted for, the finalizer is a gate,
 and removal ends.
 */
module LifecycleTheorems {
  import opened Lifecycle
  import opened LifecycleCalls
  import opened LifecycleInvariant

  // ----- Runs -------------------------------------------------------------------

  lemma {:induction false} ExecConcat(s: Sys, a: seq<Label>, b: seq<Label>)
    ensures Exec(s, a + b) == Exec(Exec(s, a), b)
    decreases |a|
  {
    if a == [] {
      assert a + b == b;
    } else {
      assert (a + b)[1..] == a[1..] + b;
      ExecConcat(Next(s, a[0]), a[1..], b);
    }
  }

  // ----- Install ------------------------------------------------------------------

  predicate WritesConfig(at: Call) {
    at.AddFinalizer? || at.MarkWrite? || at.FinalWrite? || at.BumpWrite? || at.RemStatus? || at.Finalize?
  }

  lemma OthersKeepConfig(s: Sys, r: Reply, t: Sys)
    requires t == WorkerStep(s, r) && !WritesConfig(s.w.at)
    ensures t.o.c == s.o.c
  {
  }

  predicate TouchesInstall(at: Call) {
    at.InstallCreate? || at.MarkDelete? || at.InstallDelete?
  }

  lemma RemovalKeepsInstall(s: Sys, r: Reply, t: Sys)
    requires t == WorkerStep(s, r) && InRemoval(s.w.at)
    ensures t.o.install == s.o.install && t.h.il.created == s.h.il.created
  {
  }

  lemma LiveCallsKeepInstall(s: Sys, r: Reply, t: Sys)
    requires t == WorkerStep(s, r) && !InRemoval(s.w.at) && !TouchesInstall(s.w.at)
    ensures t.o.install == s.o.install && t.h.il.created == s.h.il.created
  {
  }

  lemma OnlyInstallCreateCreates(s: Sys, r: Reply, t: Sys)
    requires t == WorkerStep(s, r) && !s.w.at.InstallCreate?
    ensures t.h.il.created == s.h.il.created
  {
    if InRemoval(s.w.at) {
      RemovalKeepsInstall(s, r, t);
    } else if !TouchesInstall(s.w.at) {
      LiveCallsKeepInstall(s, r, t);
    }
  }

  lemma WritesKeepCompletion(s: Sys, r: Reply, t: Sys)
    requires Inv(s) && s.o.c.status.completed && t == WorkerStep(s, r) && WritesConfig(s.w.at)
    ensures t.o.c.status.completed
  {
    if s.w.at.AddFinalizer? || s.w.at.Finalize? {
      assert t.o.c.status == s.o.c.status;
    } else if s.w.at.MarkWrite? || s.w.at.BumpWrite? {
      assert t.o.c == s.o.c || t.o.c.status.completed;
    }
  }

  lemma EnvKeepsStatus(s: Sys, a: Action, t: Sys)
    requires t == EnvStep(s, a)
    ensures t.o.c.status == s.o.c.status && t.o.c.finalizer == s.o.c.finalizer && t.h.il.created == s.h.il.created
  {
  }

  lemma NextKeepsCompletion(s: Sys, l: Label, t: Sys)
    requires Inv(s) && s.o.c.status.completed && t == Next(s, l)
    ensures t.o.c.status.completed && t.h.il.created == s.h.il.created
  {
    match l
    case Act(r) =>
      if WritesConfig(s.w.at) { WritesKeepCompletion(s, r, t); } else { OthersKeepConfig(s, r, t); }
      OnlyInstallCreateCreates(s, r, t);
    case Crash =>
    case Env(a) => EnvKeepsStatus(s, a, t);
  }

  lemma {:induction false} CompletionHolds(s: Sys, run: seq<Label>)
    requires Inv(s) && s.o.c.status.completed
    ensures Exec(s, run).o.c.status.completed && Exec(s, run).h.il.created == s.h.il.created
    decreases |run|
  {
    if run != [] {
      var t := Next(s, run[0]);
      NextKeeps(s, run[0]);
      NextKeepsCompletion(s, run[0], t);
      CompletionHolds(t, run[1..]);
    }
  }

  /** Once completion is committed no action reverts it and no install child is created any more. */
  lemma InstallNeverRepeated(s0: Sys, before: seq<Label>, after: seq<Label>)
    requires Initial(s0) && Exec(s0, before).o.c.status.completed
    ensures
      var s, t := Exec(s0, before), Exec(s0, before + after);
      t.o.c.status.completed && t.h.il.created == s.h.il.created
  {
    InitialInv(s0);
    RunKeeps(s0, before);
    CompletionHolds(Exec(s0, before), after);
    ExecConcat(s0, before, after);
  }

  /** While a full install is asked for, no day-two child exists before completion is committed. */
  lemma DayTwoWaitsForInstall(s0: Sys, run: seq<Label>)
    requires Initial(s0)
    ensures
      var t := Exec(s0, run);
      t.h.dl.alwaysFull && t.h.dl.created > 0 ==> t.o.c.status.completed
  {
    InitialInv(s0);
    RunKeeps(s0, run);
  }

  /**
   Every install child ever created is still live or was deleted exactly once, and
   creations are bounded by the committed retries plus what the protocol can lose.
   */
  lemma InstallAccounting(s0: Sys, run: seq<Label>)
    requires Initial(s0)
    ensures
      var t := Exec(s0, run);
      var il := t.h.il;
      && il.created == Count(Live(t.o.install)) + il.retryDeletes + il.doneDeletes + il.external
      && il.created <= 1 + t.o.c.status.installRetries + il.lost + il.external
      && t.o.c.status.installRetries <= MaxInstallRetries
      && il.increments == t.o.c.status.installRetries + il.lost + Unsaved(t.w.at, t.w.wc.status, t.o.c.status)
      && il.retryDeletes <= il.increments
  {
    InitialInv(s0);
    RunKeeps(s0, run);
  }

  // ----- Decommission ----------------------------------------------------------------

  /**
   Every decommission child is accounted for; each failed one the controller deleted
   was paid for by a committed retry; and there are at most three of them beyond
   external deletions and passes that failed to commit their finalization.
   */
  lemma DecommissionAccounting(s0: Sys, run: seq<Label>)
    requires Initial(s0)
    ensures
      var t := Exec(s0, run);
      var rl := t.h.rl;
      && rl.created == Count(Live(t.o.remove)) + rl.retryDeletes + rl.finalDeletes + rl.external
      && rl.retryDeletes <= t.o.c.status.removeRetries
      && rl.created <= 1 + t.o.c.status.removeRetries + rl.unfinished + rl.external
      && rl.created <= MaxOnRemoveRetries + rl.unfinished + rl.external
  {
    InitialInv(s0);
    RunKeeps(s0, run);
  }

  // ----- The finalizer ---------------------------------------------------------------

  lemma CreationNeedsFinalizer(s: Sys, l: Label)
    requires Inv(s)
    requires Next(s, l).h.il.created != s.h.il.created || Next(s, l).h.dl.created != s.h.dl.created
    ensures s.o.c.stored && s.o.c.finalizer
  {
  }

  /**
   In every run a child of any kind is created only while the committed object carries the
   finalizer, and a decommission child only if that object is being deleted.
   */
  lemma ChildrenNeedFinalizer(s0: Sys, run: seq<Label>, l: Label)
    requires Initial(s0)
    ensures
      var s, t := Exec(s0, run), Next(Exec(s0, run), l);
      && (t.h.il.created != s.h.il.created || t.h.dl.created != s.h.dl.created || t.h.rl.created != s.h.rl.created ==>
            s.o.c.stored && s.o.c.finalizer)
      && (t.h.rl.created != s.h.rl.created ==> s.o.c.deleting)
  {
    InitialInv(s0);
    RunKeeps(s0, run);
    var s, t := Exec(s0, run), Next(Exec(s0, run), l);
    if t.h.il.created != s.h.il.created || t.h.dl.created != s.h.dl.created { CreationNeedsFinalizer(s, l); }
    if t.h.rl.created != s.h.rl.created { DecommissionNeedsFinalizer(s, l); }
  }

  lemma DecommissionNeedsFinalizer(s: Sys, l: Label)
    requires Inv(s) && Next(s, l).h.rl.created != s.h.rl.created
    ensures s.o.c.stored && s.o.c.finalizer && s.o.c.deleting
  {
  }

  /** The finalizer disappears only by the worker's own decision, which the committed objects justify. */
  lemma FinalizerStep(s: Sys, l: Label, t: Sys)
    requires Inv(s) && t == Next(s, l) && s.o.c.finalizer && !t.o.c.finalizer
    ensures s.o.c.deleting && s.w.at.Finalize?
    ensures match s.w.why
            case NoFlake => !s.o.c.spec.onRemove
            case NoMachine => s.h.rl.machineMissing
            case CannotCreate => s.h.rl.refused
            case Succeeded => s.h.rl.successSeen
            case GaveUp => s.o.c.status.removeRetries >= MaxOnRemoveRetries
  {
    match l
    case Act(r) =>
      if WritesConfig(s.w.at) { OnlyFinalizeStrips(s, r, t); } else { OthersKeepConfig(s, r, t); }
    case Crash =>
    case Env(a) => EnvKeepsStatus(s, a, t);
  }

  lemma OnlyFinalizeStrips(s: Sys, r: Reply, t: Sys)
    requires t == WorkerStep(s, r) && WritesConfig(s.w.at) && s.o.c.finalizer && !t.o.c.finalizer
    ensures s.w.at.Finalize? && Accepts(s.o.c, s.w.wc, r)
  {
  }

  // ----- A failed install at its cap ------------------------------------------------

  /**
   The install child has failed for good, and the worker is not in the middle of
   recording a success it saw earlier.
   */
  predicate Exhausted(s: Sys) {
    && Live(s.o.install) && s.o.install.failed && !s.o.install.succeeded
    && !s.o.c.status.completed && s.o.c.status.installRetries >= MaxInstallRetries
    && !s.w.at.MarkGet? && !s.w.at.MarkWrite?
  }

  /** Everything but someone else deleting the install child or changing its report. */
  predicate LeavesInstallAlone(l: Label) {
    !(l.Env? && (l.action.DeleteInstall? || l.action.InstallReports?))
  }

  lemma InstallUntouched(s: Sys, r: Reply, t: Sys)
    requires t == WorkerStep(s, r) && Live(s.o.install) && !s.w.at.MarkDelete? && !s.w.at.InstallDelete?
    ensures t.o.install == s.o.install && t.h.il.created == s.h.il.created
  {
    if InRemoval(s.w.at) {
      RemovalKeepsInstall(s, r, t);
    } else if s.w.at.InstallCreate? {
      assert t == Goto(s, FinalWrite);
    } else {
      LiveCallsKeepInstall(s, r, t);
    }
  }

  lemma NoSuccessNoMark(s: Sys, r: Reply, t: Sys)
    requires t == WorkerStep(s, r) && !s.o.install.succeeded && !s.w.at.MarkGet? && !s.w.at.MarkWrite?
    ensures !t.w.at.MarkGet? && !t.w.at.MarkWrite?
  {
    if InRemoval(s.w.at) {
      assert !t.w.at.MarkGet? && !t.w.at.MarkWrite?;
    }
  }

  lemma WritesKeepCap(s: Sys, r: Reply, t: Sys)
    requires Inv(s) && t == WorkerStep(s, r) && WritesConfig(s.w.at) && !s.w.at.MarkWrite?
    requires !s.o.c.status.completed
    ensures !t.o.c.status.completed && t.o.c.status.installRetries >= s.o.c.status.installRetries
  {
    if s.w.at.AddFinalizer? || s.w.at.Finalize? {
      assert t.o.c.status == s.o.c.status;
    } else if s.w.at.BumpWrite? {
      assert t.o.c == s.o.c || t.o.c.status.installRetries == s.o.c.status.installRetries;
    } else {
      assert t.o.c == s.o.c || t.o.c == StoreStatus(s.o.c, s.w.wc.status);
    }
  }

  lemma ExhaustedStep(s: Sys, l: Label, t: Sys)
    requires Inv(s) && Exhausted(s) && LeavesInstallAlone(l) && t == Next(s, l)
    ensures Exhausted(t) && t.o.install == s.o.install && t.h.il.created == s.h.il.created
  {
    match l
    case Act(r) =>
      InstallUntouched(s, r, t);
      NoSuccessNoMark(s, r, t);
      if WritesConfig(s.w.at) { WritesKeepCap(s, r, t); } else { OthersKeepConfig(s, r, t); }
    case Crash =>
    case Env(a) => EnvKeepsStatus(s, a, t);
  }

  /**
   An install that has failed for good stays as it is through any run: the child is
   neither deleted nor recreated, whatever the worker is answered and the users edit.
   */
  lemma {:induction false} ExhaustedHolds(s: Sys, run: seq<Label>)
    requires Inv(s) && Exhausted(s) && forall l :: l in run ==> LeavesInstallAlone(l)
    ensures
      var t := Exec(s, run);
      Exhausted(t) && t.o.install == s.o.install && t.h.il.created == s.h.il.created
    decreases |run|
  {
    if run != [] {
      var t := Next(s, run[0]);
      assert run[0] in run;
      ExhaustedStep(s, run[0], t);
      NextKeeps(s, run[0]);
      assert forall l :: l in run[1..] ==> l in run;
      ExhaustedHolds(t, run[1..]);
    }
  }

  /** The status written at the cap: Degraded, nothing applied. */
  predicate Held(s: Sys) {
    var st := s.o.c.status;
    && Exhausted(s) && s.w.at.Idle?
    && s.o.c.stored && s.o.c.finalizer && !s.o.c.deleting
    && s.o.c.spec.fullInstall && s.o.c.spec.filesSupported && !s.o.ownedByOther
    && s.o.m.stored && s.o.m.discoverable && s.o.m.hasKey
    && st.observed == s.o.c.generation && st.target && st.installRef && st.phase.Degraded? && !st.applied
  }

  /** The worker idles, or is in a pass over the held configuration with nothing to write. */
  predicate Holding(s: Sys) {
    || s.w.at.Idle?
    || ((s.w.at.ListOwner? || s.w.at.GetMachine? || s.w.at.InstallGet? || s.w.at.InstallUpdate? || s.w.at.FinalWrite?)
        && s.w.wc == s.o.c)
  }

  /** The committed part of `Held`. */
  predicate HeldObjects(o: Objects) {
    && Live(o.install) && o.install.failed && !o.install.succeeded
    && !o.c.status.completed && o.c.status.installRetries >= MaxInstallRetries
    && o.c.stored && o.c.finalizer && !o.c.deleting
    && o.c.spec.fullInstall && o.c.spec.filesSupported && !o.ownedByOther
    && o.m.stored && o.m.discoverable && o.m.hasKey
    && o.c.status.observed == o.c.generation && o.c.status.target && o.c.status.installRef
    && o.c.status.phase.Degraded? && !o.c.status.applied
  }

  lemma HoldingStep(s: Sys, r: Reply, t: Sys)
    requires HeldObjects(s.o) && Holding(s) && t == WorkerStep(s, r)
    ensures t.o == s.o && t.h == s.h && Holding(t)
  {
    hide WorkerStep;
    if s.w.at.Idle? || s.w.at.FinalWrite? {
      EntryCalls(s, r);
    } else if s.w.at.InstallGet? || s.w.at.InstallUpdate? {
      InstallCalls(s, r);
    } else {
      GateCalls(s, r);
    }
  }

  lemma CrashHolds(s: Sys)
    requires HeldObjects(s.o) && Holding(s)
    ensures Abandon(s).o == s.o && Abandon(s).h == s.h && Holding(Abandon(s))
  {
  }

  lemma {:induction false} HoldingRun(s: Sys, run: seq<Label>)
    requires HeldObjects(s.o) && Holding(s) && forall l :: l in run ==> !l.Env?
    ensures Exec(s, run).o == s.o && Exec(s, run).h == s.h
    decreases |run|
  {
    if run != [] {
      hide HeldObjects, Holding, WorkerStep;
      var t := Next(s, run[0]);
      assert run[0] in run && forall l :: l in run[1..] ==> l in run;
      if run[0].Act? { HoldingStep(s, run[0].reply, t); } else { CrashHolds(s); }
      HoldingRun(t, run[1..]);
    }
  }

  /**
   However often the terminal Degraded state is reconciled, whatever the calls are answered
   and wherever the worker crashes, nothing is written, created, deleted or counted.
   */
  lemma HeldIsFixpoint(s: Sys, run: seq<Label>)
    requires Held(s) && forall l :: l in run ==> !l.Env?
    ensures Exec(s, run).o == s.o && Exec(s, run).h == s.h
  {
    HoldingRun(s, run);
  }
}
