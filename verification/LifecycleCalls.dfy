/** Which step function a call of the worker runs, for proofs that follow single calls. */
module LifecycleCalls {
  import opened Lifecycle

  lemma EntryCalls(s: Sys, r: Reply)
    ensures s.w.at.Idle? ==> WorkerStep(s, r) == StepIdle(s, r)
    ensures s.w.at.AddFinalizer? ==> WorkerStep(s, r) == StepAddFinalizer(s, r)
    ensures s.w.at.FinalWrite? ==> WorkerStep(s, r) == StepFinalWrite(s, r)
  {
  }

  lemma GateCalls(s: Sys, r: Reply)
    ensures s.w.at.ListOwner? ==> WorkerStep(s, r) == StepListOwner(s, r)
    ensures s.w.at.GetMachine? ==> WorkerStep(s, r) == StepGetMachine(s, r)
    ensures s.w.at.SuspendGet? ==> WorkerStep(s, r) == StepSuspendGet(s, r)
    ensures s.w.at.SuspendWrite? ==> WorkerStep(s, r) == StepSuspendWrite(s, r)
  {
  }

  lemma InstallCalls(s: Sys, r: Reply)
    ensures s.w.at.InstallGet? ==> WorkerStep(s, r) == StepInstallGet(s, r)
    ensures s.w.at.InstallCreate? ==> WorkerStep(s, r) == StepInstallCreate(s, r)
    ensures s.w.at.InstallUpdate? ==> WorkerStep(s, r) == StepInstallUpdate(s, r)
  {
  }

  lemma MarkCalls(s: Sys, r: Reply)
    ensures s.w.at.MarkGet? ==> WorkerStep(s, r) == StepMarkGet(s, r)
    ensures s.w.at.MarkWrite? ==> WorkerStep(s, r) == StepMarkWrite(s, r)
    ensures s.w.at.MarkDelete? ==> WorkerStep(s, r) == StepMarkDelete(s, r)
    ensures s.w.at.InstallDelete? ==> WorkerStep(s, r) == StepInstallDelete(s, r)
  {
  }

  lemma DayTwoCalls(s: Sys, r: Reply)
    ensures s.w.at.DayTwoGet? ==> WorkerStep(s, r) == StepDayTwoGet(s, r)
    ensures s.w.at.DayTwoCreate? ==> WorkerStep(s, r) == StepDayTwoCreate(s, r)
    ensures s.w.at.DayTwoUpdate? ==> WorkerStep(s, r) == StepDayTwoUpdate(s, r)
    ensures s.w.at.WriteBack? ==> WorkerStep(s, r) == StepWriteBack(s, r)
  {
  }

  lemma RemovalCalls(s: Sys, r: Reply)
    ensures s.w.at.RemCronGet? ==> WorkerStep(s, r) == StepRemCronGet(s, r)
    ensures s.w.at.RemCronDelete? ==> WorkerStep(s, r) == StepRemCronDelete(s, r)
    ensures s.w.at.RemGetMachine? ==> WorkerStep(s, r) == StepRemGetMachine(s, r)
  {
  }

  lemma FindCalls(s: Sys, r: Reply)
    ensures s.w.at.RemFind? ==> WorkerStep(s, r) == StepRemFind(s, r)
    ensures s.w.at.RemCreateGet? ==> WorkerStep(s, r) == StepRemCreateGet(s, r)
    ensures s.w.at.RemCreate? ==> WorkerStep(s, r) == StepRemCreate(s, r)
    ensures s.w.at.RemStatus? ==> WorkerStep(s, r) == StepRemStatus(s, r)
  {
  }

  lemma BumpCalls(s: Sys, r: Reply)
    ensures s.w.at.BumpGet? ==> WorkerStep(s, r) == StepBumpGet(s, r)
    ensures s.w.at.BumpWrite? ==> WorkerStep(s, r) == StepBumpWrite(s, r)
    ensures s.w.at.RemDeleteFailed? ==> WorkerStep(s, r) == StepRemDeleteFailed(s, r)
  {
  }

  lemma CloseCalls(s: Sys, r: Reply)
    ensures s.w.at.RemClear? ==> WorkerStep(s, r) == StepRemClear(s, r)
    ensures s.w.at.RemDeleteFinal? ==> WorkerStep(s, r) == StepRemDeleteFinal(s, r)
    ensures s.w.at.Finalize? ==> WorkerStep(s, r) == StepFinalize(s, r)
  {
  }

  /** Giving up a pass changes no object and no count of children. */
  lemma AbandonFrame(s: Sys)
    ensures Abandon(s).o == s.o && Abandon(s).w.at.Idle?
    ensures Abandon(s).h.rl.created == s.h.rl.created && Abandon(s).h.rl.external == s.h.rl.external
  {
  }
}
