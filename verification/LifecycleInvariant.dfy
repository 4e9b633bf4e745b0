/**
 The invariant of the lifecycle: what every atomic action keeps, whatever replies
 the worker gets, wherever it crashes and whatever the environment does.
 */
module LifecycleInvariant {
  import opened Lifecycle

  // ----- The worker's local state ---------------------------------------------

  /** Calls made only while the install is not committed as completed. */
  predicate InInstall(at: Call) {
    at.InstallGet? || at.InstallCreate? || at.InstallUpdate? || at.MarkGet? || at.MarkWrite? || at.InstallDelete?
  }

  predicate InDayTwo(at: Call) {
    at.DayTwoGet? || at.DayTwoCreate? || at.DayTwoUpdate?
  }

  predicate InRemoval(at: Call) {
    || at.RemCronGet? || at.RemCronDelete? || at.RemGetMachine? || at.RemFind? || at.RemCreateGet? || at.RemCreate?
    || at.BumpGet? || at.BumpWrite? || at.RemDeleteFailed? || at.RemStatus?
    || at.RemClear? || at.RemDeleteFinal? || at.Finalize?
  }

  /** Removal calls made before the copy's status may have been refreshed without its spec. */
  predicate EarlyRemoval(at: Call, why: Reason) {
    at.RemCronGet? || at.RemCronDelete? || at.RemGetMachine? || ((at.RemClear? || at.Finalize?) && why.NoFlake?)
  }

  /**
   A copy is never newer than the committed object; its spec was once committed;
   inside a pass the finalizer is committed, and nobody else writes the status.
   */
  predicate CopyInv(c: Config, alwaysFull: bool, at: Call, wc: Config, latest: Config, why: Reason) {
    !at.Idle? ==>
      && wc.rv <= c.rv
      && (alwaysFull ==> wc.spec.fullInstall)
      && (at.AddFinalizer? ==> !c.finalizer && !c.deleting)
      && (!at.AddFinalizer? ==>
            && c.stored && c.finalizer
            && StatusInv(c.status, at, wc.status, wc.spec.fullInstall)
            && (wc.rv == c.rv ==> wc.status.completed == c.status.completed))
      && (at.MarkWrite? || at.BumpWrite? ==> latest.rv <= c.rv && latest.status == c.status)
      && (InRemoval(at) ==> c.deleting)
      && (EarlyRemoval(at, why) && wc.rv == c.rv ==> wc.spec == c.spec)
  }

  /** The counters and the flag on the copy agree with the committed ones, up to the write being prepared. */
  predicate StatusInv(st: Status, at: Call, w: Status, full: bool) {
    && w.removeRetries == st.removeRetries
    && (!at.FinalWrite? ==> w.completed == st.completed)
    && w.installRetries <= MaxInstallRetries
    && (if at.InstallDelete? then w.installRetries == st.installRetries + 1
        else if at.FinalWrite? then st.installRetries <= w.installRetries <= st.installRetries + 1
        else w.installRetries == st.installRetries)
    && (InInstall(at) ==> !st.completed)
    && (at.MarkDelete? ==> st.completed)
    && (InDayTwo(at) && full ==> st.completed)
  }

  /** What the worker knows when it decides to give the object up. */
  predicate EvidenceInv(st: Status, rl: RemoveLedger, live: bool, at: Call, why: Reason, onRemove: bool) {
    at.RemClear? || at.RemDeleteFinal? || at.Finalize? ==>
      && (at.RemDeleteFinal? ==> Terminal(why))
      && (why.GaveUp? || (at.Finalize? && why.Succeeded?) ==> !live)
      && (why.NoFlake? ==> !onRemove)
      && (why.NoMachine? ==> rl.machineMissing)
      && (why.CannotCreate? ==> rl.refused)
      && (why.Succeeded? ==> rl.successSeen)
      && (why.GaveUp? ==> st.removeRetries >= MaxOnRemoveRetries)
  }

  // ----- Install ----------------------------------------------------------------

  predicate InstallInv(st: Status, il: InstallLedger, live: bool, at: Call, wc: Status) {
    && il.created == Count(live) + il.retryDeletes + il.doneDeletes + il.external
    && il.increments == st.installRetries + il.lost + Unsaved(at, wc, st)
    && il.retryDeletes + Count(at.InstallDelete?) <= il.increments
    && st.installRetries <= MaxInstallRetries
    && il.doneDeletes <= 1
    && (il.doneDeletes == 1 ==> st.completed && !live)
    && (at.FinalWrite? && Unsaved(at, wc, st) == 1 ==> !st.completed && (live ==> il.retryDeletes < il.increments))
  }

  predicate DayTwoInv(c: Config, dl: DayTwoLedger) {
    && (dl.alwaysFull ==> c.spec.fullInstall)
    && (dl.alwaysFull && dl.created > 0 ==> c.status.completed)
  }

  // ----- Decommission -------------------------------------------------------------

  /** Committed retries beyond the last one that may lead to another child. */
  function Over(retries: nat): nat {
    if retries < MaxOnRemoveRetries then 0 else retries - (MaxOnRemoveRetries - 1)
  }

  /** The running pass has already paid for one attempt beyond the bound. */
  predicate Charged(at: Call, wc: Status, why: Reason, closed: bool) {
    || (at.RemDeleteFailed? && wc.removeRetries >= MaxOnRemoveRetries)
    || ((at.RemClear? || at.RemDeleteFinal?) && why.GaveUp?)
    || (at.Finalize? && Terminal(why))
    || closed
  }

  predicate RemoveInv(c: Config, rl: RemoveLedger, live: bool, at: Call, wc: Status, why: Reason) {
    var retries := c.status.removeRetries;
    && rl.created == Count(live) + rl.retryDeletes + rl.finalDeletes + rl.external
    && retries == rl.retryDeletes + rl.wastedBumps + Count(at.RemDeleteFailed?)
    && Over(retries) + rl.finalDeletes <= rl.unfinished + Count(Charged(at, wc, why, rl.closed))
    && (rl.created > 0 ==> c.deleting)
    && (rl.closed ==> c.deleting && !c.finalizer && !live)
  }

  predicate Inv(s: Sys) {
    && CopyInv(s.o.c, s.h.dl.alwaysFull, s.w.at, s.w.wc, s.w.latest, s.w.why)
    && EvidenceInv(s.o.c.status, s.h.rl, Live(s.o.remove), s.w.at, s.w.why, s.w.wc.spec.onRemove)
    && InstallInv(s.o.c.status, s.h.il, Live(s.o.install), s.w.at, s.w.wc.status)
    && DayTwoInv(s.o.c, s.h.dl)
    && RemoveInv(s.o.c, s.h.rl, Live(s.o.remove), s.w.at, s.w.wc.status, s.w.why)
  }

  lemma InitialInv(s: Sys)
    requires Initial(s)
    ensures Inv(s)
  {
    assert Quiet(s);
  }

  // ----- Moving between calls ---------------------------------------------------

  /** The accounts are settled: no write or deletion is half done. */
  predicate Quiet(s: Sys) {
    && InstallInv(s.o.c.status, s.h.il, Live(s.o.install), Idle, s.w.wc.status)
    && DayTwoInv(s.o.c, s.h.dl)
    && RemoveInv(s.o.c, s.h.rl, Live(s.o.remove), Idle, s.w.wc.status, s.w.why)
  }

  /** `wc` is a working copy of a pass that has changed nothing that matters yet. */
  predicate Synced(s: Sys, wc: Config) {
    && s.o.c.stored && s.o.c.finalizer && wc.rv <= s.o.c.rv
    && (s.h.dl.alwaysFull ==> wc.spec.fullInstall)
    && wc.status.removeRetries == s.o.c.status.removeRetries
    && wc.status.completed == s.o.c.status.completed
    && wc.status.installRetries == s.o.c.status.installRetries
  }

  predicate Plain(at: Call) {
    at.ListOwner? || at.GetMachine? || at.SuspendGet? || at.SuspendWrite? || at.WriteBack? || at.FinalWrite?
  }

  lemma LiveMove(s: Sys, at: Call, wc: Config)
    requires Quiet(s) && Synced(s, wc) && Plain(at)
    ensures Inv(GotoWith(s, at, wc))
  {
  }

  lemma InstallMove(s: Sys, at: Call, wc: Config)
    requires Quiet(s) && Synced(s, wc) && !s.o.c.status.completed
    requires at.InstallGet? || at.InstallCreate? || at.InstallUpdate? || at.MarkGet?
    ensures Inv(GotoWith(s, at, wc))
  {
  }

  lemma DayTwoMove(s: Sys, at: Call, wc: Config)
    requires Quiet(s) && Synced(s, wc) && (wc.spec.fullInstall ==> s.o.c.status.completed) && InDayTwo(at)
    ensures Inv(GotoWith(s, at, wc))
  {
  }

  lemma RemovalMove(s: Sys, at: Call, wc: Config)
    requires Quiet(s) && Synced(s, wc) && s.o.c.deleting
    requires InRemoval(at) && !at.BumpWrite? && !at.RemDeleteFailed? && !at.RemClear? && !at.RemDeleteFinal? && !at.Finalize?
    requires EarlyRemoval(at, s.w.why) && wc.rv == s.o.c.rv ==> wc.spec == s.o.c.spec
    ensures Inv(GotoWith(s, at, wc))
  {
  }

  // ----- Live configuration -----------------------------------------------------

  lemma IdleKeeps(s: Sys, r: Reply, t: Sys)
    requires Inv(s) && s.w.at.Idle? && t == StepIdle(s, r)
    ensures Inv(t)
  {
    if r.Ok? && s.o.c.stored && s.o.c.finalizer {
      if s.o.c.deleting { RemovalMove(s, RemCronGet, s.o.c); } else { LiveMove(s, ListOwner, Observed(s.o.c)); }
    }
  }

  lemma AddFinalizerKeeps(s: Sys, r: Reply, t: Sys)
    requires Inv(s) && s.w.at.AddFinalizer? && t == StepAddFinalizer(s, r)
    ensures Inv(t)
  {
  }

  lemma ListOwnerKeeps(s: Sys, r: Reply, t: Sys)
    requires Inv(s) && s.w.at.ListOwner? && t == StepListOwner(s, r)
    ensures Inv(t)
  {
    LiveMove(s, FinalWrite, s.w.wc);
    var blocked := SetBlocked(s.w.wc);
    LiveMove(s, SuspendGet, blocked);
    LiveMove(s, GetMachine, s.w.wc);
  }

  lemma SuspendGetKeeps(s: Sys, r: Reply, t: Sys)
    requires Inv(s) && s.w.at.SuspendGet? && t == StepSuspendGet(s, r)
    ensures Inv(t)
  {
    LiveMove(s, FinalWrite, s.w.wc);
    LiveMove(s, SuspendWrite, s.w.wc);
  }

  lemma SuspendWriteKeeps(s: Sys, r: Reply, t: Sys)
    requires Inv(s) && s.w.at.SuspendWrite? && t == StepSuspendWrite(s, r)
    ensures Inv(t)
  {
  }

  lemma GetMachineKeeps(s: Sys, r: Reply, t: Sys)
    requires Inv(s) && s.w.at.GetMachine? && t == StepGetMachine(s, r)
    ensures Inv(t)
  {
    if !r.Ok? {
      LiveMove(s, FinalWrite, s.w.wc);
    } else if !s.o.m.stored || !s.o.m.discoverable {
      var blocked := SetBlocked(s.w.wc);
      LiveMove(s, SuspendGet, blocked);
    } else {
      var s1, wc := s.(w := s.w.(mach := s.o.m)), Targeted(s.w.wc);
      assert Quiet(s1) && Synced(s1, wc);
      TargetedKeeps(s1, wc, t);
    }
  }

  lemma TargetedKeeps(s: Sys, wc: Config, t: Sys)
    requires Quiet(s) && Synced(s, wc)
    requires t == (if wc.spec.fullInstall && !wc.status.completed
                   then GotoWith(s, if Buildable(wc, s.o.m) then InstallGet else FinalWrite, wc)
                   else GotoWith(s, if Buildable(wc, s.o.m) then DayTwoGet else FinalWrite, wc))
    ensures Inv(t)
  {
    LiveMove(s, FinalWrite, wc);
    if wc.spec.fullInstall && !wc.status.completed {
      InstallMove(s, InstallGet, wc);
    } else {
      DayTwoMove(s, DayTwoGet, wc);
    }
  }

  lemma InstallGetKeeps(s: Sys, r: Reply, t: Sys)
    requires Inv(s) && s.w.at.InstallGet? && t == StepInstallGet(s, r)
    ensures Inv(t)
  {
    LiveMove(s, FinalWrite, s.w.wc);
    InstallMove(s, InstallCreate, s.w.wc);
    InstallMove(s, InstallUpdate, s.w.wc);
    ObserveInstallKeeps(s, s.o.install);
  }

  lemma InstallCreateKeeps(s: Sys, r: Reply, t: Sys)
    requires Inv(s) && s.w.at.InstallCreate? && t == StepInstallCreate(s, r)
    ensures Inv(t)
  {
    LiveMove(s, FinalWrite, s.w.wc);
    if !s.o.install.present {
      var s1 := SetInstall(s, FreshChild, s.h.il.(created := s.h.il.created + 1));
      LiveMove(s1, FinalWrite, s.w.wc);
      ObserveInstallKeeps(s1, FreshChild);
    }
  }

  lemma InstallUpdateKeeps(s: Sys, r: Reply, t: Sys)
    requires Inv(s) && s.w.at.InstallUpdate? && t == StepInstallUpdate(s, r)
    ensures Inv(t)
  {
    LiveMove(s, FinalWrite, s.w.wc);
    ObserveInstallKeeps(s, s.o.install);
  }

  lemma ObserveInstallKeeps(s: Sys, job: Child)
    requires Quiet(s) && Synced(s, s.w.wc) && !s.o.c.status.completed
    ensures Inv(ObserveInstall(s, job))
  {
    var wc := s.w.wc.(status := s.w.wc.status.(installRef := true));
    var s0 := s.(w := s.w.(tries := 0));
    var installing, degraded := SetPhase(wc, Installing, false), SetPhase(wc, Degraded, false);
    InstallMove(s0, MarkGet, wc);
    LiveMove(s, FinalWrite, installing);
    LiveMove(s, FinalWrite, degraded);
    if wc.status.installRetries < MaxInstallRetries { CountFailureKeeps(s, wc); }
  }

  lemma CountFailureKeeps(s: Sys, wc: Config)
    requires Quiet(s) && Synced(s, wc) && !s.o.c.status.completed && wc.status.installRetries < MaxInstallRetries
    ensures Inv(CountInstallFailure(s, wc))
  {
  }

  lemma MarkGetKeeps(s: Sys, r: Reply, t: Sys)
    requires Inv(s) && s.w.at.MarkGet? && t == StepMarkGet(s, r)
    ensures Inv(t)
  {
    LiveMove(s, FinalWrite, s.w.wc);
  }

  lemma MarkWriteKeeps(s: Sys, r: Reply, t: Sys)
    requires Inv(s) && s.w.at.MarkWrite? && t == StepMarkWrite(s, r)
    ensures Inv(t)
  {
    if Accepts(s.o.c, s.w.latest, r) {
      MarkedKeeps(s);
    } else if RetriesConflict(s, r) {
      var s1 := s.(w := s.w.(tries := s.w.tries + 1));
      InstallMove(s1, MarkGet, s.w.wc);
    } else {
      LiveMove(s, FinalWrite, s.w.wc);
    }
  }

  lemma MarkedKeeps(s: Sys)
    requires Inv(s) && s.w.at.MarkWrite? && s.o.c.stored && s.o.c.rv == s.w.latest.rv
    ensures Inv(Marked(s))
    ensures Inv(GotoWith(Marked(s), FinalWrite, s.w.wc))
  {
  }

  lemma MarkDeleteKeeps(s: Sys, r: Reply, t: Sys)
    requires Inv(s) && s.w.at.MarkDelete? && t == StepMarkDelete(s, r)
    ensures Inv(t)
  {
    var s1 := if Acted(r) && Live(s.o.install)
              then SetInstall(s, s.o.install.(deleting := true), s.h.il.(doneDeletes := s.h.il.doneDeletes + 1))
              else s;
    LiveMove(s1, FinalWrite, s.w.wc);
    DayTwoMove(s1, DayTwoGet, s.w.wc);
  }

  lemma InstallDeleteKeeps(s: Sys, r: Reply, t: Sys)
    requires Inv(s) && s.w.at.InstallDelete? && t == StepInstallDelete(s, r)
    ensures Inv(t)
  {
  }

  lemma DayTwoGetKeeps(s: Sys, r: Reply, t: Sys)
    requires Inv(s) && s.w.at.DayTwoGet? && t == StepDayTwoGet(s, r)
    ensures Inv(t)
  {
    LiveMove(s, FinalWrite, s.w.wc);
    DayTwoMove(s, DayTwoCreate, s.w.wc);
    DayTwoMove(s, DayTwoUpdate, s.w.wc);
    ObserveDayTwoKeeps(s, s.o.cron);
  }

  lemma DayTwoCreateKeeps(s: Sys, r: Reply, t: Sys)
    requires Inv(s) && s.w.at.DayTwoCreate? && t == StepDayTwoCreate(s, r)
    ensures Inv(t)
  {
    if Acted(r) && !s.o.cron.present {
      var s1 := PutCron(s, FreshCron).(h := s.h.(dl := s.h.dl.(created := s.h.dl.created + 1)));
      assert Quiet(s1) && Synced(s1, s1.w.wc);
      LiveMove(s1, FinalWrite, s1.w.wc);
      ObserveDayTwoKeeps(s1, FreshCron);
    } else {
      LiveMove(s, FinalWrite, s.w.wc);
    }
  }

  lemma DayTwoUpdateKeeps(s: Sys, r: Reply, t: Sys)
    requires Inv(s) && s.w.at.DayTwoUpdate? && t == StepDayTwoUpdate(s, r)
    ensures Inv(t)
  {
    LiveMove(s, FinalWrite, s.w.wc);
    var s1 := PutCron(s, s.o.cron.(suspended := false));
    LiveMove(s1, FinalWrite, s.w.wc);
    ObserveDayTwoKeeps(s1, s1.o.cron);
  }

  lemma ObserveDayTwoKeeps(s: Sys, cron: Cron)
    requires Quiet(s) && Synced(s, s.w.wc)
    ensures Inv(ObserveDayTwo(s, cron))
  {
    var wc := s.w.wc.(status := s.w.wc.status.(dayTwoRef := true));
    var applied := wc.status.completed || cron.everSucceeded;
    var ready, degraded, converging :=
      SetPhase(wc, Ready, true), SetPhase(wc, Degraded, applied), SetPhase(wc, Converging, applied);
    LiveMove(s, WriteBack, ready);
    LiveMove(s, FinalWrite, degraded);
    LiveMove(s, FinalWrite, converging);
  }

  lemma WriteBackKeeps(s: Sys, r: Reply, t: Sys)
    requires Inv(s) && s.w.at.WriteBack? && t == StepWriteBack(s, r)
    ensures Inv(t)
  {
  }

  lemma FinalWriteKeeps(s: Sys, r: Reply, t: Sys)
    requires Inv(s) && s.w.at.FinalWrite? && t == StepFinalWrite(s, r)
    ensures Inv(t)
  {
  }

  // ----- Deleted configuration ---------------------------------------------------

  lemma RemCronGetKeeps(s: Sys, r: Reply, t: Sys)
    requires Inv(s) && s.w.at.RemCronGet? && t == StepRemCronGet(s, r)
    ensures Inv(t)
  {
  }

  lemma RemCronDeleteKeeps(s: Sys, r: Reply, t: Sys)
    requires Inv(s) && s.w.at.RemCronDelete? && t == StepRemCronDelete(s, r)
    ensures Inv(t)
  {
  }

  lemma RemGetMachineKeeps(s: Sys, r: Reply, t: Sys)
    requires Inv(s) && s.w.at.RemGetMachine? && t == StepRemGetMachine(s, r)
    ensures Inv(t)
  {
    if !r.Ok? {
      CrashKeeps(s);
    } else if !s.o.m.stored {
      var s1 := s.(h := s.h.(rl := s.h.rl.(machineMissing := true)));
      CloseMove(s1, Finalize, if s.w.wc.spec.onRemove then NoMachine else NoFlake);
    } else {
      var s1 := s.(w := s.w.(mach := s.o.m));
      if s.w.wc.spec.onRemove { RemovalMove(s1, RemFind, s.w.wc); } else { ClearKeeps(s1, NoFlake); }
    }
  }

  /** A move towards finalizing, with the accounts of the call moved to. */
  lemma CloseMove(s: Sys, at: Call, why: Reason)
    requires at.RemClear? || at.RemDeleteFinal? || at.Finalize?
    requires Synced(s, s.w.wc) && s.o.c.deleting
    requires InstallInv(s.o.c.status, s.h.il, Live(s.o.install), Idle, s.w.wc.status) && DayTwoInv(s.o.c, s.h.dl)
    requires RemoveInv(s.o.c, s.h.rl, Live(s.o.remove), at, s.w.wc.status, why)
    requires EvidenceInv(s.o.c.status, s.h.rl, Live(s.o.remove), at, why, s.w.wc.spec.onRemove)
    requires why.NoFlake? && s.w.wc.rv == s.o.c.rv ==> s.w.wc.spec == s.o.c.spec
    ensures Inv(Because(s, at, why))
  {
  }

  lemma RefuseKeeps(s: Sys)
    requires Quiet(s) && Synced(s, s.w.wc) && s.o.c.deleting
    ensures Inv(Refuse(s))
  {
    var s1 := s.(h := s.h.(rl := s.h.rl.(refused := true)));
    CloseMove(s1, Finalize, CannotCreate);
  }

  lemma ClearKeeps(s: Sys, why: Reason)
    requires Quiet(s) && Synced(s, s.w.wc) && s.o.c.deleting && (why.NoFlake? || why.Succeeded?)
    requires EvidenceInv(s.o.c.status, s.h.rl, false, RemClear, why, s.w.wc.spec.onRemove)
    requires why.NoFlake? && s.w.wc.rv == s.o.c.rv ==> s.w.wc.spec == s.o.c.spec
    ensures Inv(ClearMachine(s, why)) && Inv(AfterClear(s, why))
  {
    CloseMove(s, RemClear, why);
    CloseMove(s, if Terminal(why) then RemDeleteFinal else Finalize, why);
  }

  lemma GiveUpKeeps(s: Sys)
    requires Synced(s, s.w.wc) && s.o.c.deleting && s.o.c.status.removeRetries >= MaxOnRemoveRetries && !Live(s.o.remove)
    requires InstallInv(s.o.c.status, s.h.il, Live(s.o.install), Idle, s.w.wc.status) && DayTwoInv(s.o.c, s.h.dl)
    requires RemoveInv(s.o.c, s.h.rl, false, RemDeleteFinal, s.w.wc.status, GaveUp)
    ensures Inv(ClearMachine(s, GaveUp)) && Inv(AfterClear(s, GaveUp))
  {
    CloseMove(s, RemClear, GaveUp);
    CloseMove(s, RemDeleteFinal, GaveUp);
  }

  lemma RemFindKeeps(s: Sys, r: Reply, t: Sys)
    requires Inv(s) && s.w.at.RemFind? && t == StepRemFind(s, r)
    ensures Inv(t)
  {
    if !r.Ok? {
      CrashKeeps(s);
    } else if !s.o.remove.present {
      RemovalMove(s, RemCreateGet, s.w.wc);
      RefuseKeeps(s);
    } else {
      var wc := s.w.wc.(status := s.w.wc.status.(removeRef := true));
      var s1 := GotoWith(s, RemFind, wc);
      ObserveRemoveKeeps(s1, t);
    }
  }

  lemma ObserveRemoveKeeps(s: Sys, t: Sys)
    requires Quiet(s) && Synced(s, s.w.wc) && s.o.c.deleting && s.o.remove.present
    requires t == ObserveRemove(s)
    ensures Inv(t)
  {
    var s0, s1, wc := s.(w := s.w.(tries := 0)), s.(h := s.h.(rl := s.h.rl.(successSeen := true))), MarkRemoving(s.w.wc);
    RemovalMove(s0, BumpGet, s.w.wc);
    RemovalMove(s, RemStatus, wc);
    if s.o.remove.succeeded {
      ClearKeeps(s1, Succeeded);
    } else if s.o.remove.deleting && s.w.wc.status.removeRetries >= MaxOnRemoveRetries {
      GiveUpKeeps(s);
    }
  }

  lemma RemCreateGetKeeps(s: Sys, r: Reply, t: Sys)
    requires Inv(s) && s.w.at.RemCreateGet? && t == StepRemCreateGet(s, r)
    ensures Inv(t)
  {
    if !r.Ok? {
      RefuseKeeps(s);
    } else if s.o.remove.present {
      var wc := Requested(s.w.wc);
      RemovalMove(s, RemStatus, wc);
    } else {
      RemovalMove(s, RemCreate, s.w.wc);
    }
  }

  lemma RemCreateKeeps(s: Sys, r: Reply, t: Sys)
    requires Inv(s) && s.w.at.RemCreate? && t == StepRemCreate(s, r)
    ensures Inv(t)
  {
    if Acted(r) && !s.o.remove.present {
      var s1, wc := SetRemove(s, FreshChild, s.h.rl.(created := s.h.rl.created + 1)), Requested(s.w.wc);
      RemovalMove(s1, RemStatus, wc);
      RefuseKeeps(s1);
    } else {
      RefuseKeeps(s);
    }
  }

  lemma BumpGetKeeps(s: Sys, r: Reply, t: Sys)
    requires Inv(s) && s.w.at.BumpGet? && t == StepBumpGet(s, r)
    ensures Inv(t)
  {
  }

  lemma BumpWriteKeeps(s: Sys, r: Reply, t: Sys)
    requires Inv(s) && s.w.at.BumpWrite? && t == StepBumpWrite(s, r)
    ensures Inv(t)
  {
    if Accepts(s.o.c, s.w.latest, r) {
      BumpedKeeps(s);
      var s1 := Bumped(s);
      CrashKeeps(s1);
    } else if RetriesConflict(s, r) {
      var s0 := s.(w := s.w.(tries := s.w.tries + 1));
      RemovalMove(s0, BumpGet, s.w.wc);
    } else {
      CrashKeeps(s);
    }
  }

  lemma BumpedKeeps(s: Sys)
    requires Inv(s) && s.w.at.BumpWrite? && s.o.c.stored && s.o.c.rv == s.w.latest.rv
    ensures Inv(Bumped(s))
  {
  }

  lemma RemDeleteFailedKeeps(s: Sys, r: Reply, t: Sys)
    requires Inv(s) && s.w.at.RemDeleteFailed? && t == StepRemDeleteFailed(s, r)
    ensures Inv(t)
  {
    if Acted(r) { FailedDeletedKeeps(s); } else { CrashKeeps(s); }
  }

  lemma FailedDeletedKeeps(s: Sys)
    requires Inv(s) && s.w.at.RemDeleteFailed?
    ensures Inv(CheckCap(FailedDeleted(s)))
    ensures Inv(Unfinished(FailedDeleted(s), s.w.wc.status.removeRetries >= MaxOnRemoveRetries))
  {
    var s1 := FailedDeleted(s);
    if s.w.wc.status.removeRetries >= MaxOnRemoveRetries {
      GiveUpKeeps(s1);
    } else {
      var wc := MarkRemoving(s.w.wc);
      RemovalMove(s1, RemStatus, wc);
    }
  }

  lemma RemStatusKeeps(s: Sys, r: Reply, t: Sys)
    requires Inv(s) && s.w.at.RemStatus? && t == StepRemStatus(s, r)
    ensures Inv(t)
  {
  }

  lemma RemClearKeeps(s: Sys, r: Reply, t: Sys)
    requires Inv(s) && s.w.at.RemClear? && t == StepRemClear(s, r)
    ensures Inv(t)
  {
    var s1 := if MachineAccepts(s.o.m, s.w.mach, r) then PutMachine(s, StoreApplied(s.o.m, false)) else s;
    if t == AfterClear(s1, s.w.why) {
      CloseMove(s1, if Terminal(s.w.why) then RemDeleteFinal else Finalize, s.w.why);
    } else {
      CrashKeeps(s1);
    }
  }

  lemma RemDeleteFinalKeeps(s: Sys, r: Reply, t: Sys)
    requires Inv(s) && s.w.at.RemDeleteFinal? && t == StepRemDeleteFinal(s, r)
    ensures Inv(t)
  {
  }

  lemma FinalizeKeeps(s: Sys, r: Reply, t: Sys)
    requires Inv(s) && s.w.at.Finalize? && t == StepFinalize(s, r)
    ensures Inv(t)
  {
  }

  // ----- Environment and crashes ---------------------------------------------------

  lemma EnvKeeps(s: Sys, a: Action)
    requires Inv(s)
    ensures Inv(EnvStep(s, a))
  {
    if a.EditSpec? {
      EditKeeps(s, a.spec);
    } else if a.DeleteConfig? || a.Expunge? {
      DeletionKeeps(s, a);
    } else {
      OthersActKeep(s, a);
    }
  }

  lemma DeletionKeeps(s: Sys, a: Action)
    requires Inv(s) && (a.DeleteConfig? || a.Expunge?)
    ensures Inv(EnvStep(s, a))
  {
  }

  lemma OthersActKeep(s: Sys, a: Action)
    requires Inv(s) && !a.EditSpec? && !a.DeleteConfig? && !a.Expunge?
    ensures Inv(EnvStep(s, a))
  {
  }

  lemma EditKeeps(s: Sys, spec: Spec)
    requires Inv(s)
    ensures Inv(EditConfig(s, spec))
  {
  }

  lemma CrashKeeps(s: Sys)
    requires Inv(s)
    ensures Inv(Abandon(s))
  {
  }

  // ----- Every action ---------------------------------------------------------------

  lemma WorkerKeeps(s: Sys, r: Reply)
    requires Inv(s)
    ensures Inv(WorkerStep(s, r))
  {
    var t := WorkerStep(s, r);
    match s.w.at
    case Idle => IdleKeeps(s, r, t);
    case AddFinalizer => AddFinalizerKeeps(s, r, t);
    case ListOwner => ListOwnerKeeps(s, r, t);
    case GetMachine => GetMachineKeeps(s, r, t);
    case SuspendGet => SuspendGetKeeps(s, r, t);
    case SuspendWrite => SuspendWriteKeeps(s, r, t);
    case InstallGet => InstallGetKeeps(s, r, t);
    case InstallCreate => InstallCreateKeeps(s, r, t);
    case InstallUpdate => InstallUpdateKeeps(s, r, t);
    case MarkGet => MarkGetKeeps(s, r, t);
    case MarkWrite => MarkWriteKeeps(s, r, t);
    case MarkDelete => MarkDeleteKeeps(s, r, t);
    case InstallDelete => InstallDeleteKeeps(s, r, t);
    case DayTwoGet => DayTwoGetKeeps(s, r, t);
    case DayTwoCreate => DayTwoCreateKeeps(s, r, t);
    case DayTwoUpdate => DayTwoUpdateKeeps(s, r, t);
    case WriteBack => WriteBackKeeps(s, r, t);
    case FinalWrite => FinalWriteKeeps(s, r, t);
    case RemCronGet => RemCronGetKeeps(s, r, t);
    case RemCronDelete => RemCronDeleteKeeps(s, r, t);
    case RemGetMachine => RemGetMachineKeeps(s, r, t);
    case RemFind => RemFindKeeps(s, r, t);
    case RemCreateGet => RemCreateGetKeeps(s, r, t);
    case RemCreate => RemCreateKeeps(s, r, t);
    case BumpGet => BumpGetKeeps(s, r, t);
    case BumpWrite => BumpWriteKeeps(s, r, t);
    case RemDeleteFailed => RemDeleteFailedKeeps(s, r, t);
    case RemStatus => RemStatusKeeps(s, r, t);
    case RemClear => RemClearKeeps(s, r, t);
    case RemDeleteFinal => RemDeleteFinalKeeps(s, r, t);
    case Finalize => FinalizeKeeps(s, r, t);
  }

  lemma NextKeeps(s: Sys, l: Label)
    requires Inv(s)
    ensures Inv(Next(s, l))
  {
    match l
    case Act(r) => WorkerKeeps(s, r);
    case Crash => CrashKeeps(s);
    case Env(a) => EnvKeeps(s, a);
  }

  /** The invariant holds after every run of every length. */
  lemma {:induction false} RunKeeps(s: Sys, run: seq<Label>)
    requires Inv(s)
    ensures Inv(Exec(s, run))
    decreases |run|
  {
    if run != [] {
      NextKeeps(s, run[0]);
      RunKeeps(Next(s, run[0]), run[1..]);
    }
  }
}
