/**
 What an observer notes who sees the calls with what they send, their answers, the committed
 objects and the copies the worker has read: the events of the pass that is running. The
 history counters and reasons of the transition system are shown to agree with it.
 */
module LifecyclePasses {
  import opened Lifecycle
  import opened LifecycleCalls
  import opened LifecycleInvariant
  import opened LifecycleTheorems
  import opened Options

  // ----- Events --------------------------------------------------------------------

  predicate Answered(l: Label) {
    l.Act? && l.reply.Ok?
  }

  predicate ReadsNoMachine(s: Sys, l: Label) {
    s.w.at.RemGetMachine? && Answered(l) && !s.o.m.stored
  }

  /** The pass treats this answer as "cannot build or create". */
  predicate Refuses(s: Sys, l: Label) {
    && l.Act?
    && (|| (s.w.at.RemFind? && l.reply.Ok? && !s.o.remove.present && !Buildable(s.w.wc, s.w.mach))
        || (s.w.at.RemCreateGet? && !l.reply.Ok?)
        || (s.w.at.RemCreate? && (!l.reply.Ok? || s.o.remove.present)))
  }

  predicate SeesSuccess(s: Sys, l: Label) {
    s.w.at.RemFind? && Answered(l) && s.o.remove.present && s.o.remove.succeeded
  }

  /** The failed child is already being deleted and the retries are used up. */
  predicate SeesCap(s: Sys, l: Label) {
    && s.w.at.RemFind? && Answered(l) && s.o.remove.present && !s.o.remove.succeeded && s.o.remove.failed
    && s.o.remove.deleting && s.w.wc.status.removeRetries >= MaxOnRemoveRetries
  }

  /** The server accepts the write that counts a failed decommission. */
  predicate CommitsCount(s: Sys, l: Label) {
    s.w.at.BumpWrite? && l.Act? && Accepts(s.o.c, s.w.latest, l.reply)
  }

  predicate ReachesCap(s: Sys, l: Label) {
    CommitsCount(s, l) && s.w.latest.status.removeRetries + 1 >= MaxOnRemoveRetries
  }

  /** The install child is seen failed, not being deleted, with retries left. */
  predicate SeesInstallFailure(s: Sys, l: Label) {
    && s.w.at.InstallUpdate? && Answered(l) && Live(s.o.install) && !s.o.install.succeeded && s.o.install.failed
    && s.w.wc.status.installRetries < MaxInstallRetries
  }

  // ----- The notes on the running pass ------------------------------------------------

  /**
   `read` is the spec the pass's first Get returned, `counted` the committed spec at the
   moment the pass committed a count; the flags are events of this pass.
   */
  datatype Notes = Notes(
    read: Spec, counted: Option<Spec>, missing: bool, success: bool, refused: bool, terminal: bool, failure: bool)

  /** Between passes the notes are torn up: the next label may be the first Get. */
  function Noted(p: Notes, s: Sys, l: Label): Notes {
    if s.w.at.Idle? then Notes(s.o.c.spec, None, false, false, false, false, false)
    else
      Notes(p.read, if CommitsCount(s, l) then Some(s.o.c.spec) else p.counted,
            p.missing || ReadsNoMachine(s, l), p.success || SeesSuccess(s, l), p.refused || Refuses(s, l),
            p.terminal || SeesSuccess(s, l) || SeesCap(s, l) || ReachesCap(s, l),
            p.failure || SeesInstallFailure(s, l))
  }

  function NotesOf(s0: Sys, run: seq<Label>): Notes {
    if run == [] then Notes(s0.o.c.spec, None, false, false, false, false, false)
    else
      var front := run[..|run| - 1];
      Noted(NotesOf(s0, front), Exec(s0, front), run[|run| - 1])
  }

  predicate TerminalNoted(s: Sys, p: Notes) {
    !s.w.at.Idle? ==> (p.terminal <==> Closing(s.w.at, s.w.wc.status, s.w.why))
  }

  predicate FailureNoted(s: Sys, p: Notes) {
    !s.w.at.Idle? ==> (p.failure <==> Unsaved(s.w.at, s.w.wc.status, s.o.c.status) > 0)
  }

  /**
   The copy keeps the spec first read. If it is current, that spec is still committed,
   unless the pass has committed a count and with it taken a newer resource version.
   */
  predicate SpecNoted(s: Sys, p: Notes) {
    InRemoval(s.w.at) || s.w.at.AddFinalizer? ==>
      && s.w.wc.spec == p.read
      && (s.w.at.AddFinalizer? ==> p.counted.None?)
      && (s.w.wc.rv == s.o.c.rv ==> s.o.c.spec == if p.counted.Some? then p.counted.value else p.read)
  }

  predicate InClosing(at: Call) {
    at.RemClear? || at.RemDeleteFinal? || at.Finalize?
  }

  predicate ReasonNoted(s: Sys, p: Notes) {
    InClosing(s.w.at) ==>
      match s.w.why
      case NoFlake => !p.read.onRemove
      case NoMachine => p.missing
      case CannotCreate => p.refused
      case Succeeded => p.success
      case GaveUp => p.terminal
  }

  predicate AllNoted(s: Sys, p: Notes) {
    TerminalNoted(s, p) && FailureNoted(s, p) && SpecNoted(s, p) && ReasonNoted(s, p)
  }

  // ----- Frames -------------------------------------------------------------------------

  predicate IsLive(at: Call) {
    !InRemoval(at) && !at.Idle?
  }

  lemma LiveStaysLive(s: Sys, r: Reply, t: Sys)
    requires IsLive(s.w.at) && t == WorkerStep(s, r)
    ensures !InRemoval(t.w.at) && !t.w.at.AddFinalizer? && t.o.remove == s.o.remove
  {
  }

  lemma LiveKeepsRemovals(s: Sys, r: Reply, t: Sys)
    requires IsLive(s.w.at) && t == WorkerStep(s, r)
    ensures t.h.rl.created == s.h.rl.created && t.h.rl.unfinished == s.h.rl.unfinished && t.h.rl.external == s.h.rl.external
  {
  }

  lemma RemovalKeepsInstalls(s: Sys, r: Reply, t: Sys)
    requires InRemoval(s.w.at) && t == WorkerStep(s, r)
    ensures t.h.il == s.h.il && t.o.install == s.o.install && (InRemoval(t.w.at) || t.w.at.Idle?)
  {
    hide WorkerStep;
    if s.w.at.RemClear? || s.w.at.RemDeleteFinal? || s.w.at.Finalize? {
      CloseCalls(s, r);
    } else if s.w.at.BumpGet? || s.w.at.BumpWrite? || s.w.at.RemDeleteFailed? {
      BumpCalls(s, r);
    } else if s.w.at.RemCronGet? || s.w.at.RemCronDelete? || s.w.at.RemGetMachine? {
      RemovalCalls(s, r);
    } else {
      FindCalls(s, r);
    }
  }

  /** What a step between passes leaves: the first Get of a pass, or nothing. */
  lemma IdleStarts(s: Sys, r: Reply, t: Sys)
    requires s.w.at.Idle? && t == WorkerStep(s, r)
    ensures t.o == s.o && t.h == s.h
    ensures !t.w.at.Idle? ==> t.w.wc.spec == s.o.c.spec && t.w.wc.status.installRetries == s.o.c.status.installRetries
    ensures t.w.at.Idle? || t.w.at.RemCronGet? || t.w.at.AddFinalizer? || t.w.at.ListOwner?
  {
    hide WorkerStep;
    EntryCalls(s, r);
  }

  lemma EnvKeepsPass(s: Sys, a: Action, t: Sys)
    requires t == EnvStep(s, a)
    ensures t.w == s.w && t.o.c.status == s.o.c.status && t.o.c.finalizer == s.o.c.finalizer
    ensures t.o.c.spec == s.o.c.spec || t.o.c.rv > s.o.c.rv
    ensures t.o.c.rv >= s.o.c.rv
  {
  }

  // ----- The notes agree, step by step -----------------------------------------------------

  lemma IdleNoted(s: Sys, l: Label, t: Sys, q: Notes)
    requires s.w.at.Idle? && t == Next(s, l) && q == Notes(s.o.c.spec, None, false, false, false, false, false)
    ensures AllNoted(t, q)
  {
    match l
    case Act(r) => IdleStarts(s, r, t);
    case Crash =>
    case Env(a) => EnvKeepsPass(s, a, t);
  }

  lemma LiveNoted(s: Sys, r: Reply, t: Sys, p: Notes)
    requires Inv(s) && IsLive(s.w.at) && AllNoted(s, p) && t == WorkerStep(s, r)
    ensures AllNoted(t, Noted(p, s, Act(r)))
  {
    LiveStaysLive(s, r, t);
    LiveFailureNoted(s, r, t, p);
  }

  lemma LiveFailureNoted(s: Sys, r: Reply, t: Sys, p: Notes)
    requires Inv(s) && IsLive(s.w.at) && FailureNoted(s, p) && t == WorkerStep(s, r)
    ensures FailureNoted(t, Noted(p, s, Act(r)))
  {
    hide WorkerStep;
    if s.w.at.InstallGet? || s.w.at.InstallCreate? || s.w.at.InstallUpdate? {
      InstallFailureNoted(s, r, t, p);
    } else if s.w.at.MarkGet? || s.w.at.MarkWrite? || s.w.at.MarkDelete? || s.w.at.InstallDelete? {
      MarkFailureNoted(s, r, t, p);
    } else if s.w.at.AddFinalizer? || s.w.at.FinalWrite? {
      EntryCalls(s, r);
    } else if InDayTwo(s.w.at) || s.w.at.WriteBack? {
      DayTwoFailureNoted(s, r, t, p);
    } else {
      GateFailureNoted(s, r, t, p);
    }
  }

  lemma InstallFailureNoted(s: Sys, r: Reply, t: Sys, p: Notes)
    requires s.w.at.InstallGet? || s.w.at.InstallCreate? || s.w.at.InstallUpdate?
    requires Inv(s) && FailureNoted(s, p) && t == WorkerStep(s, r)
    ensures FailureNoted(t, Noted(p, s, Act(r)))
  {
    hide WorkerStep;
    InstallCalls(s, r);
  }

  lemma MarkFailureNoted(s: Sys, r: Reply, t: Sys, p: Notes)
    requires s.w.at.MarkGet? || s.w.at.MarkWrite? || s.w.at.MarkDelete? || s.w.at.InstallDelete?
    requires Inv(s) && FailureNoted(s, p) && t == WorkerStep(s, r)
    ensures FailureNoted(t, Noted(p, s, Act(r)))
  {
    hide WorkerStep;
    MarkCalls(s, r);
  }

  lemma GateFailureNoted(s: Sys, r: Reply, t: Sys, p: Notes)
    requires s.w.at.ListOwner? || s.w.at.GetMachine? || s.w.at.SuspendGet? || s.w.at.SuspendWrite?
    requires Inv(s) && FailureNoted(s, p) && t == WorkerStep(s, r)
    ensures FailureNoted(t, Noted(p, s, Act(r)))
  {
    hide WorkerStep;
    GateCalls(s, r);
  }

  lemma SetPhaseFrame(s: Sys, at: Call, wc: Config, phase: Phase, applied: bool)
    ensures
      var t := GotoWith(s, at, SetPhase(wc, phase, applied));
      t.o == s.o && t.w.at == at && t.w.wc.status.installRetries == wc.status.installRetries
  {
  }

  lemma ObserveDayTwoFrame(s: Sys, cron: Cron)
    ensures
      var t := ObserveDayTwo(s, cron);
      t.o == s.o && t.w.wc.status.installRetries == s.w.wc.status.installRetries && (t.w.at.WriteBack? || t.w.at.FinalWrite?)
  {
    hide GotoWith, SetPhase;
    var wc := s.w.wc.(status := s.w.wc.status.(dayTwoRef := true));
    var applied := wc.status.completed || cron.everSucceeded;
    SetPhaseFrame(s, WriteBack, wc, Ready, true);
    SetPhaseFrame(s, FinalWrite, wc, Degraded, applied);
    SetPhaseFrame(s, FinalWrite, wc, Converging, applied);
  }

  lemma DayTwoFrame(s: Sys, r: Reply, t: Sys)
    requires (InDayTwo(s.w.at) || s.w.at.WriteBack?) && t == WorkerStep(s, r)
    ensures t.o.c == s.o.c && t.w.wc.status.installRetries == s.w.wc.status.installRetries && !t.w.at.InstallDelete?
  {
    hide WorkerStep, ObserveDayTwo;
    DayTwoCalls(s, r);
    ObserveDayTwoFrame(s, s.o.cron);
    var made := PutCron(s, FreshCron).(h := s.h.(dl := s.h.dl.(created := s.h.dl.created + 1)));
    ObserveDayTwoFrame(made, FreshCron);
    var resumed := s.o.cron.(suspended := false);
    ObserveDayTwoFrame(PutCron(s, resumed), resumed);
  }

  lemma DayTwoFailureNoted(s: Sys, r: Reply, t: Sys, p: Notes)
    requires InDayTwo(s.w.at) || s.w.at.WriteBack?
    requires Inv(s) && FailureNoted(s, p) && t == WorkerStep(s, r)
    ensures FailureNoted(t, Noted(p, s, Act(r)))
  {
    hide WorkerStep;
    DayTwoFrame(s, r, t);
  }

  lemma RemovalNoted(s: Sys, r: Reply, t: Sys, p: Notes)
    requires Inv(s) && InRemoval(s.w.at) && AllNoted(s, p) && t == WorkerStep(s, r)
    ensures AllNoted(t, Noted(p, s, Act(r)))
  {
    hide WorkerStep;
    RemovalKeepsInstalls(s, r, t);
    if s.w.at.RemClear? || s.w.at.RemDeleteFinal? || s.w.at.Finalize? {
      CloseCalls(s, r);
      CloseNoted(s, r, t, p);
    } else if s.w.at.BumpGet? || s.w.at.BumpWrite? {
      BumpCalls(s, r);
      BumpNoted(s, r, t, p);
    } else if s.w.at.RemDeleteFailed? {
      BumpCalls(s, r);
      DeleteNoted(s, r, t, p);
    } else if s.w.at.RemCronGet? || s.w.at.RemCronDelete? || s.w.at.RemGetMachine? {
      RemovalCalls(s, r);
      EntryNoted(s, r, t, p);
    } else if s.w.at.RemFind? {
      FindCalls(s, r);
      FindNoted(s, r, t, p);
    } else {
      FindCalls(s, r);
      CreateNoted(s, r, t, p);
    }
  }

  lemma CloseNoted(s: Sys, r: Reply, t: Sys, p: Notes)
    requires Inv(s) && InClosing(s.w.at) && AllNoted(s, p) && t == WorkerStep(s, r)
    ensures AllNoted(t, Noted(p, s, Act(r)))
  {
    hide WorkerStep;
    CloseCalls(s, r);
  }

  lemma BumpNoted(s: Sys, r: Reply, t: Sys, p: Notes)
    requires Inv(s) && (s.w.at.BumpGet? || s.w.at.BumpWrite?) && AllNoted(s, p) && t == WorkerStep(s, r)
    ensures AllNoted(t, Noted(p, s, Act(r)))
  {
    hide WorkerStep;
    BumpCalls(s, r);
  }

  lemma DeleteNoted(s: Sys, r: Reply, t: Sys, p: Notes)
    requires Inv(s) && s.w.at.RemDeleteFailed? && AllNoted(s, p) && t == WorkerStep(s, r)
    ensures AllNoted(t, Noted(p, s, Act(r)))
  {
    hide WorkerStep;
    BumpCalls(s, r);
    var d := FailedDeleted(s);
    assert d.w == s.w && d.o.c == s.o.c;
  }

  lemma EntryNoted(s: Sys, r: Reply, t: Sys, p: Notes)
    requires s.w.at.RemCronGet? || s.w.at.RemCronDelete? || s.w.at.RemGetMachine?
    requires Inv(s) && AllNoted(s, p) && t == WorkerStep(s, r)
    ensures AllNoted(t, Noted(p, s, Act(r)))
  {
    hide WorkerStep;
    RemovalCalls(s, r);
  }

  lemma FindNoted(s: Sys, r: Reply, t: Sys, p: Notes)
    requires Inv(s) && s.w.at.RemFind? && AllNoted(s, p) && t == WorkerStep(s, r)
    ensures AllNoted(t, Noted(p, s, Act(r)))
  {
    hide WorkerStep;
    FindCalls(s, r);
  }

  lemma CreateNoted(s: Sys, r: Reply, t: Sys, p: Notes)
    requires s.w.at.RemCreateGet? || s.w.at.RemCreate? || s.w.at.RemStatus?
    requires Inv(s) && AllNoted(s, p) && t == WorkerStep(s, r)
    ensures AllNoted(t, Noted(p, s, Act(r)))
  {
    hide WorkerStep;
    FindCalls(s, r);
  }

  lemma StepNoted(s: Sys, l: Label, p: Notes)
    requires Inv(s) && AllNoted(s, p)
    ensures AllNoted(Next(s, l), Noted(p, s, l))
  {
    hide WorkerStep;
    var t := Next(s, l);
    if s.w.at.Idle? {
      IdleNoted(s, l, t, Noted(p, s, l));
    } else {
      match l
      case Act(r) => if InRemoval(s.w.at) { RemovalNoted(s, r, t, p); } else { LiveNoted(s, r, t, p); }
      case Crash =>
      case Env(a) => EnvKeepsPass(s, a, t);
    }
  }

  lemma ExecSnoc(s0: Sys, run: seq<Label>)
    requires run != []
    ensures Exec(s0, run) == Next(Exec(s0, run[..|run| - 1]), run[|run| - 1])
  {
    var front, l := run[..|run| - 1], run[|run| - 1];
    assert run == front + [l];
    ExecConcat(s0, front, [l]);
    assert [l][1..] == [];
    assert Exec(Next(Exec(s0, front), l), []) == Next(Exec(s0, front), l);
  }

  /** Over every run the notes agree with where the worker is and why. */
  lemma {:induction false} NotesAgree(s0: Sys, run: seq<Label>)
    requires Initial(s0)
    ensures Inv(Exec(s0, run)) && AllNoted(Exec(s0, run), NotesOf(s0, run))
  {
    InitialInv(s0);
    RunKeeps(s0, run);
    if run != [] {
      var front := run[..|run| - 1];
      NotesAgree(s0, front);
      ExecSnoc(s0, run);
      StepNoted(Exec(s0, front), run[|run| - 1], NotesOf(s0, front));
    }
  }
}
