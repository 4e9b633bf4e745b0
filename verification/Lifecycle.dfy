/**
 The life of one NixosConfiguration as a transition system.

 The API server's committed objects, the single reconcile worker and the
 environment take turns. Every label is one atomic action: one API call of the
 worker together with the reply it gets, a crash of the worker, or one step of
 the environment. A label that is not enabled leaves the system unchanged, so a
 run is simply a sequence of labels.

 The worker holds a working copy of the configuration in its program counter,
 exactly as the reconcile functions hold `config`: status changes are made on
 that copy and reach the server only by a write that the server accepts if the
 copy's resource version is still the committed one.
 */
module Lifecycle {

  const MaxInstallRetries: nat := 3
  const MaxOnRemoveRetries: nat := 3

  /** Attempts made by a retry-on-conflict closure before it gives up. */
  const ConflictAttempts: nat := 5

  // ----- Committed objects -------------------------------------------------

  datatype Phase = Unset | Blocked | Installing | Converging | Ready | Degraded | Removing

  /** The status subresource; the `...Ref` fields say whether the child's name is recorded. */
  datatype Status = Status(
    observed: nat, phase: Phase, applied: bool, completed: bool, target: bool,
    installRef: bool, dayTwoRef: bool, removeRef: bool,
    installRetries: nat, removeRetries: nat)

  datatype Spec = Spec(fullInstall: bool, onRemove: bool, filesSupported: bool)

  datatype Config = Config(
    stored: bool, rv: nat, generation: nat, deleting: bool, finalizer: bool,
    spec: Spec, status: Status)

  /** The referenced Machine; `appliedHere` says its write-back names this configuration. */
  datatype Machine = Machine(stored: bool, rv: nat, discoverable: bool, hasKey: bool, appliedHere: bool)

  /** A child NixJob; `succeeded` and `failed` are "the counter is above zero". */
  datatype Child = Child(present: bool, deleting: bool, succeeded: bool, failed: bool)

  datatype CronPhase = CronReady | CronFailing | CronOther

  datatype Cron = Cron(
    present: bool, deleting: bool, suspended: bool,
    phase: CronPhase, infraStalled: bool, everSucceeded: bool)

  const NoChild := Child(false, false, false, false)
  const FreshChild := Child(true, false, false, false)
  const NoCron := Cron(false, false, false, CronOther, false, false)
  const FreshCron := Cron(true, false, false, CronOther, false, false)

  predicate Live(child: Child) {
    child.present && !child.deleting
  }

  function Count(b: bool): nat {
    if b then 1 else 0
  }

  // ----- The worker --------------------------------------------------------

  /** Why the finalizer is being removed. */
  datatype Reason = NoFlake | NoMachine | CannotCreate | Succeeded | GaveUp

  /** The API call the worker makes next. */
  datatype Call =
    | Idle
    // live configuration
    | AddFinalizer | ListOwner | GetMachine | SuspendGet | SuspendWrite
    | InstallGet | InstallCreate | InstallUpdate | MarkGet | MarkWrite | MarkDelete | InstallDelete
    | DayTwoGet | DayTwoCreate | DayTwoUpdate | WriteBack | FinalWrite
    // deleted configuration
    | RemCronGet | RemCronDelete | RemGetMachine | RemFind | RemCreateGet | RemCreate
    | BumpGet | BumpWrite | RemDeleteFailed | RemStatus | RemClear | RemDeleteFinal | Finalize

  /**
   History counters: they are written, never read, by the steps. Deletions count
   the moment a live child stops being live, by who caused it.
   */
  datatype InstallLedger = InstallLedger(
    created: nat, retryDeletes: nat, doneDeletes: nat, external: nat, increments: nat, lost: nat)

  datatype RemoveLedger = RemoveLedger(
    created: nat, retryDeletes: nat, finalDeletes: nat, external: nat, wastedBumps: nat,
    unfinished: nat, successSeen: bool, machineMissing: bool, refused: bool, closed: bool)

  datatype DayTwoLedger = DayTwoLedger(created: nat, alwaysFull: bool)

  /** Everything the API server has committed. */
  datatype Objects = Objects(
    c: Config, m: Machine, ownedByOther: bool, install: Child, remove: Child, cron: Cron)

  /**
   The next call and the local variables: the working copy `wc`, the Machine that
   was read, the copy re-read inside a retry closure with the attempts made, and
   the reason for finalizing.
   */
  datatype Worker = Worker(at: Call, wc: Config, mach: Machine, latest: Config, tries: nat, why: Reason)

  datatype History = History(il: InstallLedger, rl: RemoveLedger, dl: DayTwoLedger)

  datatype Sys = Sys(o: Objects, w: Worker, h: History)

  /** What the worker learns from one call. `Lost`: the server acted, but the worker sees an error. */
  datatype Reply = Ok | Conflict | Fail | Lost

  predicate Acted(r: Reply) {
    r.Ok? || r.Lost?
  }

  // ----- Server-side effects ----------------------------------------------

  /** A write carrying `wc` is accepted exactly when the object exists at that resource version. */
  predicate Accepts(c: Config, wc: Config, r: Reply) {
    c.stored && c.rv == wc.rv && Acted(r)
  }

  /** A write that changes nothing does not move the resource version. */
  function StoreStatus(c: Config, st: Status): Config {
    if st == c.status then c else c.(status := st, rv := c.rv + 1)
  }

  predicate MachineAccepts(m: Machine, seen: Machine, r: Reply) {
    m.stored && m.rv == seen.rv && Acted(r)
  }

  function StoreApplied(m: Machine, here: bool): Machine {
    if m.appliedHere == here then m else m.(appliedHere := here, rv := m.rv + 1)
  }

  // ----- Status changes on the working copy ---------------------------------

  function SetPhase(wc: Config, phase: Phase, applied: bool): Config {
    wc.(status := wc.status.(phase := phase, applied := applied))
  }

  function SetBlocked(wc: Config): Config {
    SetPhase(wc, Blocked, false)
  }

  predicate Buildable(wc: Config, mach: Machine) {
    mach.hasKey && wc.spec.filesSupported
  }

  // ----- How a pass ends -----------------------------------------------------

  /** Install failures counted on the working copy `wc` but not yet committed in `st`. */
  function Unsaved(at: Call, wc: Status, st: Status): int {
    if at.InstallDelete? || at.FinalWrite? then wc.installRetries - st.installRetries else 0
  }

  /** Outcomes that were reached by running the decommission child. */
  predicate Terminal(why: Reason) {
    why.Succeeded? || why.GaveUp?
  }

  /** The pass has seen a terminal decommission outcome and is on its way to finalize. */
  predicate Closing(at: Call, wc: Status, why: Reason) {
    || (at.RemDeleteFailed? && wc.removeRetries >= MaxOnRemoveRetries)
    || ((at.RemClear? || at.RemDeleteFinal? || at.Finalize?) && Terminal(why))
  }

  /** The worker stops here, by an error return or a crash; the working copy is forgotten. */
  function Abandon(s: Sys): Sys {
    var il := s.h.il.(lost := s.h.il.lost + Count(Unsaved(s.w.at, s.w.wc.status, s.o.c.status) > 0));
    var rl := s.h.rl.(wastedBumps := s.h.rl.wastedBumps + Count(s.w.at.RemDeleteFailed?),
                      unfinished := s.h.rl.unfinished + Count(Closing(s.w.at, s.w.wc.status, s.w.why)));
    s.(w := s.w.(at := Idle), h := s.h.(il := il, rl := rl))
  }

  // ----- Small updates ---------------------------------------------------------

  function Goto(s: Sys, at: Call): Sys {
    s.(w := s.w.(at := at))
  }

  function GotoWith(s: Sys, at: Call, wc: Config): Sys {
    s.(w := s.w.(at := at, wc := wc))
  }

  function Because(s: Sys, at: Call, why: Reason): Sys {
    s.(w := s.w.(at := at, why := why))
  }

  function Commit(s: Sys, c: Config): Sys {
    s.(o := s.o.(c := c))
  }

  function SetInstall(s: Sys, child: Child, il: InstallLedger): Sys {
    s.(o := s.o.(install := child), h := s.h.(il := il))
  }

  function SetRemove(s: Sys, child: Child, rl: RemoveLedger): Sys {
    s.(o := s.o.(remove := child), h := s.h.(rl := rl))
  }

  function PutCron(s: Sys, cron: Cron): Sys {
    s.(o := s.o.(cron := cron))
  }

  function PutMachine(s: Sys, m: Machine): Sys {
    s.(o := s.o.(m := m))
  }

  // ----- Live configuration: one function per call ---------------------------

  function StepIdle(s: Sys, r: Reply): Sys
    requires s.w.at.Idle?
  {
    if !r.Ok? || !s.o.c.stored then s
    else if s.o.c.deleting then
      if s.o.c.finalizer then GotoWith(s, RemCronGet, s.o.c) else s
    else if !s.o.c.finalizer then GotoWith(s, AddFinalizer, s.o.c)
    else GotoWith(s, ListOwner, Observed(s.o.c))
  }

  function Observed(c: Config): Config {
    c.(status := c.status.(observed := c.generation))
  }

  function StepAddFinalizer(s: Sys, r: Reply): Sys
    requires s.w.at.AddFinalizer?
  {
    if Accepts(s.o.c, s.w.wc, r) then
      var c := s.o.c.(spec := s.w.wc.spec, finalizer := true, rv := s.o.c.rv + 1);
      if r.Ok? then GotoWith(Commit(s, c), ListOwner, Observed(c)) else Goto(Commit(s, c), Idle)
    else Goto(s, Idle)
  }

  function StepListOwner(s: Sys, r: Reply): Sys
    requires s.w.at.ListOwner?
  {
    if !r.Ok? then Goto(s, FinalWrite)
    else if s.o.ownedByOther then GotoWith(s, SuspendGet, SetBlocked(s.w.wc))
    else Goto(s, GetMachine)
  }

  function StepSuspendGet(s: Sys, r: Reply): Sys
    requires s.w.at.SuspendGet?
  {
    if r.Ok? && s.o.cron.present && !s.o.cron.suspended then Goto(s, SuspendWrite) else Goto(s, FinalWrite)
  }

  function StepSuspendWrite(s: Sys, r: Reply): Sys
    requires s.w.at.SuspendWrite?
  {
    var s1 := if Acted(r) && s.o.cron.present then PutCron(s, s.o.cron.(suspended := true)) else s;
    Goto(s1, FinalWrite)
  }

  function StepGetMachine(s: Sys, r: Reply): Sys
    requires s.w.at.GetMachine?
  {
    if !r.Ok? then Goto(s, FinalWrite)
    else if !s.o.m.stored || !s.o.m.discoverable then GotoWith(s, SuspendGet, SetBlocked(s.w.wc))
    else
      var wc := Targeted(s.w.wc);
      var s1 := s.(w := s.w.(mach := s.o.m));
      if wc.spec.fullInstall && !wc.status.completed then
        GotoWith(s1, if Buildable(wc, s.o.m) then InstallGet else FinalWrite, wc)
      else GotoWith(s1, if Buildable(wc, s.o.m) then DayTwoGet else FinalWrite, wc)
  }

  function Targeted(wc: Config): Config {
    wc.(status := wc.status.(target := true))
  }

  function StepInstallGet(s: Sys, r: Reply): Sys
    requires s.w.at.InstallGet?
  {
    if !r.Ok? then Goto(s, FinalWrite)
    else if !s.o.install.present then Goto(s, InstallCreate)
    else if s.o.install.deleting then ObserveInstall(s, s.o.install)
    else Goto(s, InstallUpdate)
  }

  function StepInstallCreate(s: Sys, r: Reply): Sys
    requires s.w.at.InstallCreate?
  {
    if Acted(r) && !s.o.install.present then
      var s1 := SetInstall(s, FreshChild, s.h.il.(created := s.h.il.created + 1));
      if r.Ok? then ObserveInstall(s1, FreshChild) else Goto(s1, FinalWrite)
    else Goto(s, FinalWrite)
  }

  function StepInstallUpdate(s: Sys, r: Reply): Sys
    requires s.w.at.InstallUpdate?
  {
    if r.Ok? && s.o.install.present then ObserveInstall(s, s.o.install) else Goto(s, FinalWrite)
  }

  /** The switch on the install child's outcome. */
  function ObserveInstall(s: Sys, job: Child): Sys {
    var wc := s.w.wc.(status := s.w.wc.status.(installRef := true));
    if job.succeeded then StartMark(s, wc)
    else if job.failed then
      if job.deleting then GotoWith(s, FinalWrite, SetPhase(wc, Installing, false))
      else if wc.status.installRetries >= MaxInstallRetries then GotoWith(s, FinalWrite, SetPhase(wc, Degraded, false))
      else CountInstallFailure(s, wc)
    else GotoWith(s, FinalWrite, SetPhase(wc, Installing, false))
  }

  function StartMark(s: Sys, wc: Config): Sys {
    s.(w := s.w.(at := MarkGet, wc := wc, tries := 0))
  }

  /** Counts the failure on the working copy only; the final write is to commit it. */
  function CountInstallFailure(s: Sys, wc: Config): Sys {
    var counted := wc.(status := wc.status.(installRetries := wc.status.installRetries + 1));
    s.(w := s.w.(at := InstallDelete, wc := counted),
       h := s.h.(il := s.h.il.(increments := s.h.il.increments + 1)))
  }

  function StepMarkGet(s: Sys, r: Reply): Sys
    requires s.w.at.MarkGet?
  {
    if r.Ok? && s.o.c.stored then s.(w := s.w.(at := MarkWrite, latest := s.o.c)) else Goto(s, FinalWrite)
  }

  function StepMarkWrite(s: Sys, r: Reply): Sys
    requires s.w.at.MarkWrite?
  {
    if Accepts(s.o.c, s.w.latest, r) then
      if r.Ok? then Marked(s) else GotoWith(Marked(s), FinalWrite, s.w.wc)
    else if RetriesConflict(s, r) then s.(w := s.w.(at := MarkGet, tries := s.w.tries + 1))
    else Goto(s, FinalWrite)
  }

  /** Completion is committed; the copy takes the fresh status and resource version but keeps its spec. */
  function Marked(s: Sys): Sys {
    var st := s.w.latest.status.(completed := true, installRef := false);
    var c := StoreStatus(s.o.c, st);
    GotoWith(Commit(s, c), MarkDelete, s.w.wc.(status := st, rv := c.rv))
  }

  /** The refused write was a conflict and the closure has attempts left. */
  predicate RetriesConflict(s: Sys, r: Reply) {
    !r.Fail? && s.o.c.stored && s.w.tries + 1 < ConflictAttempts
  }

  function StepMarkDelete(s: Sys, r: Reply): Sys
    requires s.w.at.MarkDelete?
  {
    var s1 := if Acted(r) && Live(s.o.install)
              then SetInstall(s, s.o.install.(deleting := true), s.h.il.(doneDeletes := s.h.il.doneDeletes + 1))
              else s;
    if r.Ok? && Buildable(s.w.wc, s.w.mach) then Goto(s1, DayTwoGet) else Goto(s1, FinalWrite)
  }

  function StepInstallDelete(s: Sys, r: Reply): Sys
    requires s.w.at.InstallDelete?
  {
    var s1 := if Acted(r) && Live(s.o.install)
              then SetInstall(s, s.o.install.(deleting := true), s.h.il.(retryDeletes := s.h.il.retryDeletes + 1))
              else s;
    if r.Ok? then GotoWith(s1, FinalWrite, SetPhase(s.w.wc, Installing, false)) else Goto(s1, FinalWrite)
  }

  function StepDayTwoGet(s: Sys, r: Reply): Sys
    requires s.w.at.DayTwoGet?
  {
    if !r.Ok? then Goto(s, FinalWrite)
    else if !s.o.cron.present then Goto(s, DayTwoCreate)
    else if s.o.cron.deleting then ObserveDayTwo(s, s.o.cron)
    else Goto(s, DayTwoUpdate)
  }

  function StepDayTwoCreate(s: Sys, r: Reply): Sys
    requires s.w.at.DayTwoCreate?
  {
    if Acted(r) && !s.o.cron.present then
      var s1 := PutCron(s, FreshCron).(h := s.h.(dl := s.h.dl.(created := s.h.dl.created + 1)));
      if r.Ok? then ObserveDayTwo(s1, FreshCron) else Goto(s1, FinalWrite)
    else Goto(s, FinalWrite)
  }

  function StepDayTwoUpdate(s: Sys, r: Reply): Sys
    requires s.w.at.DayTwoUpdate?
  {
    if Acted(r) && s.o.cron.present then
      var cron := s.o.cron.(suspended := false);
      if r.Ok? then ObserveDayTwo(PutCron(s, cron), cron) else Goto(PutCron(s, cron), FinalWrite)
    else Goto(s, FinalWrite)
  }

  /** The switch on the day-two child's health. */
  function ObserveDayTwo(s: Sys, cron: Cron): Sys {
    var wc := s.w.wc.(status := s.w.wc.status.(dayTwoRef := true));
    var applied := wc.status.completed || cron.everSucceeded;
    if cron.phase.CronReady? && cron.everSucceeded then GotoWith(s, WriteBack, SetPhase(wc, Ready, true))
    else if cron.infraStalled || cron.phase.CronFailing? then GotoWith(s, FinalWrite, SetPhase(wc, Degraded, applied))
    else GotoWith(s, FinalWrite, SetPhase(wc, Converging, applied))
  }

  function StepWriteBack(s: Sys, r: Reply): Sys
    requires s.w.at.WriteBack?
  {
    var s1 := if MachineAccepts(s.o.m, s.w.mach, r) then PutMachine(s, StoreApplied(s.o.m, true)) else s;
    Goto(s1, FinalWrite)
  }

  /** The single status write that ends every pass over a live configuration. */
  function StepFinalWrite(s: Sys, r: Reply): Sys
    requires s.w.at.FinalWrite?
  {
    if Accepts(s.o.c, s.w.wc, r) then Goto(Commit(s, StoreStatus(s.o.c, s.w.wc.status)), Idle) else Abandon(s)
  }

  // ----- Deleted configuration -------------------------------------------------

  /** Trouble with the day-two cron is only logged here. */
  function StepRemCronGet(s: Sys, r: Reply): Sys
    requires s.w.at.RemCronGet?
  {
    if r.Ok? && s.o.cron.present && !s.o.cron.deleting then Goto(s, RemCronDelete) else Goto(s, RemGetMachine)
  }

  function StepRemCronDelete(s: Sys, r: Reply): Sys
    requires s.w.at.RemCronDelete?
  {
    var s1 := if Acted(r) && s.o.cron.present then PutCron(s, s.o.cron.(deleting := true)) else s;
    Goto(s1, RemGetMachine)
  }

  function StepRemGetMachine(s: Sys, r: Reply): Sys
    requires s.w.at.RemGetMachine?
  {
    if !r.Ok? then Abandon(s)
    else if !s.o.m.stored then
      Because(s.(h := s.h.(rl := s.h.rl.(machineMissing := true))), Finalize,
              if s.w.wc.spec.onRemove then NoMachine else NoFlake)
    else if !s.w.wc.spec.onRemove then ClearMachine(s.(w := s.w.(mach := s.o.m)), NoFlake)
    else s.(w := s.w.(at := RemFind, mach := s.o.m))
  }

  /** Skips the write when the Machine no longer points at this configuration. */
  function ClearMachine(s: Sys, why: Reason): Sys {
    if s.w.mach.appliedHere then Because(s, RemClear, why) else AfterClear(s, why)
  }

  function AfterClear(s: Sys, why: Reason): Sys {
    if Terminal(why) then Because(s, RemDeleteFinal, why) else Because(s, Finalize, why)
  }

  /** A Machine that is gone by now counts as cleared. */
  function StepRemClear(s: Sys, r: Reply): Sys
    requires s.w.at.RemClear?
  {
    var s1 := if MachineAccepts(s.o.m, s.w.mach, r) then PutMachine(s, StoreApplied(s.o.m, false)) else s;
    if r.Ok? && (!s.o.m.stored || s.o.m.rv == s.w.mach.rv) then AfterClear(s1, s.w.why) else Abandon(s1)
  }

  function StepRemFind(s: Sys, r: Reply): Sys
    requires s.w.at.RemFind?
  {
    if !r.Ok? then Abandon(s)
    else if !s.o.remove.present then
      if Buildable(s.w.wc, s.w.mach) then Goto(s, RemCreateGet) else Refuse(s)
    else ObserveRemove(GotoWith(s, RemFind, s.w.wc.(status := s.w.wc.status.(removeRef := true))))
  }

  /** The decommission child could not be built or created. */
  function Refuse(s: Sys): Sys {
    Because(s.(h := s.h.(rl := s.h.rl.(refused := true))), Finalize, CannotCreate)
  }

  /** The switch on the decommission child's outcome. */
  function ObserveRemove(s: Sys): Sys {
    if s.o.remove.succeeded then ClearMachine(s.(h := s.h.(rl := s.h.rl.(successSeen := true))), Succeeded)
    else if s.o.remove.failed then
      if s.o.remove.deleting then CheckCap(s) else s.(w := s.w.(at := BumpGet, tries := 0))
    else GotoWith(s, RemStatus, MarkRemoving(s.w.wc))
  }

  function MarkRemoving(wc: Config): Config {
    wc.(status := wc.status.(phase := Removing))
  }

  function Requested(wc: Config): Config {
    wc.(status := wc.status.(removeRef := true, phase := Removing))
  }

  function StepRemCreateGet(s: Sys, r: Reply): Sys
    requires s.w.at.RemCreateGet?
  {
    if !r.Ok? then Refuse(s)
    else if s.o.remove.present then GotoWith(s, RemStatus, Requested(s.w.wc))
    else Goto(s, RemCreate)
  }

  /** Any error of the create, even a transient one, takes the "cannot build or create" path. */
  function StepRemCreate(s: Sys, r: Reply): Sys
    requires s.w.at.RemCreate?
  {
    if Acted(r) && !s.o.remove.present then
      var s1 := SetRemove(s, FreshChild, s.h.rl.(created := s.h.rl.created + 1));
      if r.Ok? then GotoWith(s1, RemStatus, Requested(s.w.wc)) else Refuse(s1)
    else Refuse(s)
  }

  function StepBumpGet(s: Sys, r: Reply): Sys
    requires s.w.at.BumpGet?
  {
    if r.Ok? && s.o.c.stored then s.(w := s.w.(at := BumpWrite, latest := s.o.c)) else Abandon(s)
  }

  function StepBumpWrite(s: Sys, r: Reply): Sys
    requires s.w.at.BumpWrite?
  {
    if Accepts(s.o.c, s.w.latest, r) then
      if r.Ok? then Bumped(s) else Abandon(Bumped(s))
    else if RetriesConflict(s, r) then s.(w := s.w.(at := BumpGet, tries := s.w.tries + 1))
    else Abandon(s)
  }

  /** The counter is committed; as after a mark, only status and resource version are synced. */
  function Bumped(s: Sys): Sys {
    var st := s.w.latest.status.(removeRetries := s.w.latest.status.removeRetries + 1, phase := Removing);
    var c := StoreStatus(s.o.c, st);
    GotoWith(Commit(s, c), RemDeleteFailed, s.w.wc.(status := st, rv := c.rv))
  }

  function StepRemDeleteFailed(s: Sys, r: Reply): Sys
    requires s.w.at.RemDeleteFailed?
  {
    if r.Ok? then CheckCap(FailedDeleted(s))
    else if r.Lost? then Unfinished(FailedDeleted(s), s.w.wc.status.removeRetries >= MaxOnRemoveRetries)
    else Abandon(s)
  }

  /** The failed child is deleted, unless somebody else did it meanwhile. */
  function FailedDeleted(s: Sys): Sys {
    if Live(s.o.remove)
    then SetRemove(s, s.o.remove.(deleting := true), s.h.rl.(retryDeletes := s.h.rl.retryDeletes + 1))
    else SetRemove(s, s.o.remove, s.h.rl.(wastedBumps := s.h.rl.wastedBumps + 1))
  }

  /** Stops with the deletion done but its answer lost. */
  function Unfinished(s: Sys, closing: bool): Sys {
    Goto(s, Idle).(h := s.h.(rl := s.h.rl.(unfinished := s.h.rl.unfinished + Count(closing))))
  }

  function CheckCap(s: Sys): Sys {
    if s.w.wc.status.removeRetries >= MaxOnRemoveRetries then ClearMachine(s, GaveUp)
    else GotoWith(s, RemStatus, MarkRemoving(s.w.wc))
  }

  function StepRemDeleteFinal(s: Sys, r: Reply): Sys
    requires s.w.at.RemDeleteFinal?
  {
    var s1 := if Acted(r) && Live(s.o.remove)
              then SetRemove(s, s.o.remove.(deleting := true), s.h.rl.(finalDeletes := s.h.rl.finalDeletes + 1))
              else s;
    if r.Ok? then Goto(s1, Finalize) else Unfinished(s1, true)
  }

  function StepRemStatus(s: Sys, r: Reply): Sys
    requires s.w.at.RemStatus?
  {
    if Accepts(s.o.c, s.w.wc, r) then Goto(Commit(s, StoreStatus(s.o.c, s.w.wc.status)), Idle) else Goto(s, Idle)
  }

  /** A metadata update: it also writes back the spec of the working copy. */
  function StepFinalize(s: Sys, r: Reply): Sys
    requires s.w.at.Finalize?
  {
    if Accepts(s.o.c, s.w.wc, r) then
      var c := s.o.c.(spec := s.w.wc.spec, finalizer := false, rv := s.o.c.rv + 1);
      var rl := s.h.rl.(closed := s.h.rl.closed || Terminal(s.w.why));
      Goto(Commit(s, c), Idle).(h := s.h.(rl := rl))
    else Abandon(s)
  }

  /** One API call of the worker. */
  function WorkerStep(s: Sys, r: Reply): Sys {
    match s.w.at
    case Idle => StepIdle(s, r)
    case AddFinalizer => StepAddFinalizer(s, r)
    case ListOwner => StepListOwner(s, r)
    case GetMachine => StepGetMachine(s, r)
    case SuspendGet => StepSuspendGet(s, r)
    case SuspendWrite => StepSuspendWrite(s, r)
    case InstallGet => StepInstallGet(s, r)
    case InstallCreate => StepInstallCreate(s, r)
    case InstallUpdate => StepInstallUpdate(s, r)
    case MarkGet => StepMarkGet(s, r)
    case MarkWrite => StepMarkWrite(s, r)
    case MarkDelete => StepMarkDelete(s, r)
    case InstallDelete => StepInstallDelete(s, r)
    case DayTwoGet => StepDayTwoGet(s, r)
    case DayTwoCreate => StepDayTwoCreate(s, r)
    case DayTwoUpdate => StepDayTwoUpdate(s, r)
    case WriteBack => StepWriteBack(s, r)
    case FinalWrite => StepFinalWrite(s, r)
    case RemCronGet => StepRemCronGet(s, r)
    case RemCronDelete => StepRemCronDelete(s, r)
    case RemGetMachine => StepRemGetMachine(s, r)
    case RemFind => StepRemFind(s, r)
    case RemCreateGet => StepRemCreateGet(s, r)
    case RemCreate => StepRemCreate(s, r)
    case BumpGet => StepBumpGet(s, r)
    case BumpWrite => StepBumpWrite(s, r)
    case RemDeleteFailed => StepRemDeleteFailed(s, r)
    case RemStatus => StepRemStatus(s, r)
    case RemClear => StepRemClear(s, r)
    case RemDeleteFinal => StepRemDeleteFinal(s, r)
    case Finalize => StepFinalize(s, r)
  }

  // ----- The environment ---------------------------------------------------------

  datatype Action =
    | EditSpec(spec: Spec)
    | DeleteConfig
    | Expunge
    | SetMachine(machine: Machine)
    | SetOwner(other: bool)
    | InstallReports(jobSucceeded: bool, jobFailed: bool)
    | RemoveReports(jobSucceeded: bool, jobFailed: bool)
    | DeleteInstall
    | DeleteRemove
    | ReapInstall
    | ReapRemove
    | SetCron(cron: Cron)

  function EnvStep(s: Sys, a: Action): Sys {
    match a
    case EditSpec(spec) => EditConfig(s, spec)
    case DeleteConfig =>
      if !s.o.c.stored || s.o.c.deleting then s
      else if s.o.c.finalizer then Commit(s, s.o.c.(deleting := true, rv := s.o.c.rv + 1))
      else Commit(s, s.o.c.(stored := false))
    case Expunge =>
      if s.o.c.stored && s.o.c.deleting && !s.o.c.finalizer then Commit(s, s.o.c.(stored := false)) else s
    case SetMachine(machine) => PutMachine(s, machine)
    case SetOwner(other) => s.(o := s.o.(ownedByOther := other))
    case InstallReports(ok, bad) =>
      if s.o.install.present then SetInstall(s, s.o.install.(succeeded := ok, failed := bad), s.h.il) else s
    case RemoveReports(ok, bad) =>
      if s.o.remove.present then SetRemove(s, s.o.remove.(succeeded := ok, failed := bad), s.h.rl) else s
    case DeleteInstall =>
      if Live(s.o.install)
      then SetInstall(s, s.o.install.(deleting := true), s.h.il.(external := s.h.il.external + 1))
      else s
    case DeleteRemove =>
      if Live(s.o.remove)
      then SetRemove(s, s.o.remove.(deleting := true), s.h.rl.(external := s.h.rl.external + 1))
      else s
    case ReapInstall => if s.o.install.present && s.o.install.deleting then SetInstall(s, NoChild, s.h.il) else s
    case ReapRemove => if s.o.remove.present && s.o.remove.deleting then SetRemove(s, NoChild, s.h.rl) else s
    case SetCron(cron) => if s.o.cron.present then PutCron(s, cron) else s
  }

  function EditConfig(s: Sys, spec: Spec): Sys {
    if !s.o.c.stored || spec == s.o.c.spec then s
    else
      var c := s.o.c.(spec := spec, generation := s.o.c.generation + 1, rv := s.o.c.rv + 1);
      Commit(s, c).(h := s.h.(dl := s.h.dl.(alwaysFull := s.h.dl.alwaysFull && spec.fullInstall)))
  }

  // ----- Runs ---------------------------------------------------------------------

  datatype Label = Act(reply: Reply) | Crash | Env(action: Action)

  function Next(s: Sys, l: Label): Sys {
    match l
    case Act(r) => WorkerStep(s, r)
    case Crash => Abandon(s)
    case Env(a) => EnvStep(s, a)
  }

  function Exec(s: Sys, run: seq<Label>): Sys
    decreases |run|
  {
    if run == [] then s else Exec(Next(s, run[0]), run[1..])
  }

  const EmptyStatus := Status(0, Unset, false, false, false, false, false, false, 0, 0)
  const NoInstalls := InstallLedger(0, 0, 0, 0, 0, 0)
  const NoRemovals := RemoveLedger(0, 0, 0, 0, 0, 0, false, false, false, false)

  /** A configuration that has just been created: no finalizer, no status, no children. */
  predicate Initial(s: Sys) {
    && s.o.c.stored && !s.o.c.deleting && !s.o.c.finalizer && s.o.c.status == EmptyStatus
    && s.o.install == NoChild && s.o.remove == NoChild && s.o.cron == NoCron
    && s.w.at == Idle
    && s.h.il == NoInstalls && s.h.rl == NoRemovals && s.h.dl == DayTwoLedger(0, s.o.c.spec.fullInstall)
  }
}
