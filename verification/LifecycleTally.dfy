/**
 How often things happened in a run, counted from its labels, the committed objects and the
 notes on each pass, and the bounds these counts obey.
 */
module LifecycleTally {
  import opened Lifecycle
  import opened LifecycleCalls
  import opened LifecycleInvariant
  import opened LifecycleTheorems
  import opened LifecyclePasses

  // ----- Where the history counters move --------------------------------------------

  /** The exact step at which an install failure goes uncounted. */
  lemma FailureIsLostExactlyHere(s: Sys, l: Label, t: Sys)
    requires Inv(s) && t == Next(s, l)
    ensures t.h.il.lost == s.h.il.lost + Count(ForgetsFailure(s, l))
  {
    match l
    case Act(r) =>
      if InRemoval(s.w.at) { RemovalLosesNothing(s, r, t); } else { LiveLoses(s, r, t); }
    case Crash =>
    case Env(a) => EnvLosesNothing(s, a, t);
  }

  predicate ForgetsFailure(s: Sys, l: Label) {
    && Unsaved(s.w.at, s.w.wc.status, s.o.c.status) > 0
    && (l.Crash? || (l.Act? && s.w.at.FinalWrite? && !Accepts(s.o.c, s.w.wc, l.reply)))
  }

  lemma RemovalLosesNothing(s: Sys, r: Reply, t: Sys)
    requires t == WorkerStep(s, r) && InRemoval(s.w.at)
    ensures t.h.il.lost == s.h.il.lost
  {
  }

  lemma LiveLoses(s: Sys, r: Reply, t: Sys)
    requires t == WorkerStep(s, r) && !InRemoval(s.w.at)
    ensures t.h.il.lost == s.h.il.lost + Count(ForgetsFailure(s, Act(r)))
  {
    if s.w.at.FinalWrite? { assert t == StepFinalWrite(s, r); }
  }

  lemma EnvLosesNothing(s: Sys, a: Action, t: Sys)
    requires t == EnvStep(s, a)
    ensures t.h.il.lost == s.h.il.lost
  {
  }

  /** The pass was about to finalize after a terminal outcome and ends without having done so. */
  predicate LeavesUnfinished(s: Sys, l: Label) {
    || (!l.Env? && Closing(s.w.at, s.w.wc.status, s.w.why) && Next(s, l).w.at.Idle?
        && !(l.Act? && s.w.at.Finalize? && Accepts(s.o.c, s.w.wc, l.reply)))
    || (l.Act? && CapUnanswered(s, l.reply))
  }

  /** The write that brings the count to its cap is accepted, but the pass does not learn of it. */
  predicate CapUnanswered(s: Sys, r: Reply) {
    && s.w.at.BumpWrite? && r.Lost? && Accepts(s.o.c, s.w.latest, r)
    && s.w.latest.status.removeRetries + 1 >= MaxOnRemoveRetries
  }

  /** The exact step that allows one decommission child more than the cap. */
  lemma UnfinishedExactlyHere(s: Sys, l: Label, t: Sys)
    requires Inv(s) && t == Next(s, l)
    ensures t.h.rl.unfinished == s.h.rl.unfinished + Count(LeavesUnfinished(s, l))
  {
    match l
    case Act(r) =>
      hide WorkerStep;
      if s.w.at.RemClear? || s.w.at.RemDeleteFinal? || s.w.at.Finalize? {
        CloseCalls(s, r);
        CloseUnfinished(s, r, t);
      } else if s.w.at.RemDeleteFailed? {
        BumpCalls(s, r);
        DeleteUnfinished(s, r, t);
      } else {
        OthersFinish(s, r, t);
      }
    case Crash =>
    case Env(a) => EnvFinishes(s, a, t);
  }

  lemma CloseUnfinished(s: Sys, r: Reply, t: Sys)
    requires Inv(s) && (s.w.at.RemClear? || s.w.at.RemDeleteFinal? || s.w.at.Finalize?) && t == WorkerStep(s, r)
    ensures t.h.rl.unfinished == s.h.rl.unfinished + Count(LeavesUnfinished(s, Act(r)))
  {
    hide WorkerStep;
    CloseCalls(s, r);
  }

  lemma DeleteUnfinished(s: Sys, r: Reply, t: Sys)
    requires s.w.at.RemDeleteFailed? && t == WorkerStep(s, r)
    ensures t.h.rl.unfinished == s.h.rl.unfinished + Count(LeavesUnfinished(s, Act(r)))
  {
    hide WorkerStep;
    BumpCalls(s, r);
    var d := FailedDeleted(s);
    assert d.w == s.w && d.h.rl.unfinished == s.h.rl.unfinished;
    assert CheckCap(d).h.rl.unfinished == s.h.rl.unfinished && !CheckCap(d).w.at.Idle?;
  }

  lemma OthersFinish(s: Sys, r: Reply, t: Sys)
    requires t == WorkerStep(s, r)
    requires !s.w.at.RemClear? && !s.w.at.RemDeleteFinal? && !s.w.at.Finalize? && !s.w.at.RemDeleteFailed?
    ensures t.h.rl.unfinished == s.h.rl.unfinished + Count(CapUnanswered(s, r))
  {
    hide WorkerStep;
    if InRemoval(s.w.at) {
      RemovalCalls(s, r);
      FindCalls(s, r);
      BumpCalls(s, r);
    } else {
      LiveFinishes(s, r, t);
    }
  }

  lemma LiveFinishes(s: Sys, r: Reply, t: Sys)
    requires t == WorkerStep(s, r) && !InRemoval(s.w.at)
    ensures t.h.rl.unfinished == s.h.rl.unfinished
  {
  }

  lemma EnvFinishes(s: Sys, a: Action, t: Sys)
    requires t == EnvStep(s, a)
    ensures t.h.rl.unfinished == s.h.rl.unfinished
  {
  }

  // ----- Counting a run ---------------------------------------------------------------

  predicate Appears(before: Child, after: Child) {
    !before.present && after.present
  }

  predicate EndsPass(s: Sys, t: Sys) {
    !s.w.at.Idle? && t.w.at.Idle?
  }

  /** The pass saw a terminal decommission outcome and ends with the finalizer still committed. */
  predicate CutShort(s: Sys, t: Sys, noted: Notes) {
    EndsPass(s, t) && noted.terminal && t.o.c.finalizer
  }

  /** The pass counted a failed install and ends without having committed the count. */
  predicate Forgets(s: Sys, t: Sys, noted: Notes) {
    EndsPass(s, t) && noted.failure && t.o.c.status.installRetries == s.o.c.status.installRetries
  }

  datatype Tally = Tally(
    installs: nat, removals: nat, forgotten: nat, cutShort: nat, installDeletes: nat, removeDeletes: nat)

  function Tallied(n: Tally, s: Sys, l: Label, noted: Notes): Tally {
    var t := Next(s, l);
    Tally(n.installs + Count(Appears(s.o.install, t.o.install)),
          n.removals + Count(Appears(s.o.remove, t.o.remove)),
          n.forgotten + Count(Forgets(s, t, noted)),
          n.cutShort + Count(CutShort(s, t, noted)),
          n.installDeletes + Count(l == Env(DeleteInstall) && Live(s.o.install)),
          n.removeDeletes + Count(l == Env(DeleteRemove) && Live(s.o.remove)))
  }

  function TallyOf(s0: Sys, run: seq<Label>): Tally {
    if run == [] then Tally(0, 0, 0, 0, 0, 0)
    else
      var front := run[..|run| - 1];
      Tallied(TallyOf(s0, front), Exec(s0, front), run[|run| - 1], NotesOf(s0, run))
  }

  predicate Agrees(h: History, n: Tally) {
    && h.il.created == n.installs && h.rl.created == n.removals
    && h.il.lost == n.forgotten && h.rl.unfinished == n.cutShort
    && h.il.external == n.installDeletes && h.rl.external == n.removeDeletes
  }

  // ----- The history counters agree --------------------------------------------------

  lemma RemovalAppears(s: Sys, r: Reply, t: Sys)
    requires InRemoval(s.w.at) && t == WorkerStep(s, r)
    ensures t.h.rl.created == s.h.rl.created + Count(Appears(s.o.remove, t.o.remove)) && t.h.rl.external == s.h.rl.external
  {
    hide WorkerStep;
    if InClosing(s.w.at) {
      CloseCalls(s, r);
    } else if s.w.at.BumpGet? || s.w.at.BumpWrite? || s.w.at.RemDeleteFailed? {
      BumpCalls(s, r);
    } else if s.w.at.RemCronGet? || s.w.at.RemCronDelete? || s.w.at.RemGetMachine? {
      RemovalCalls(s, r);
    } else {
      FindCalls(s, r);
    }
  }

  lemma InstallAppears(s: Sys, r: Reply, t: Sys)
    requires IsLive(s.w.at) && t == WorkerStep(s, r)
    ensures t.h.il.created == s.h.il.created + Count(Appears(s.o.install, t.o.install)) && t.h.il.external == s.h.il.external
  {
    hide WorkerStep;
    if s.w.at.InstallGet? || s.w.at.InstallCreate? || s.w.at.InstallUpdate? {
      InstallCalls(s, r);
    } else if s.w.at.MarkGet? || s.w.at.MarkWrite? || s.w.at.MarkDelete? || s.w.at.InstallDelete? {
      MarkCalls(s, r);
    } else {
      OthersInstallNothing(s, r, t);
    }
  }

  lemma OthersInstallNothing(s: Sys, r: Reply, t: Sys)
    requires IsLive(s.w.at) && !InInstall(s.w.at) && !s.w.at.MarkDelete? && t == WorkerStep(s, r)
    ensures t.o.install == s.o.install && t.h.il.created == s.h.il.created && t.h.il.external == s.h.il.external
  {
  }

  lemma ForgetsIsLost(s: Sys, l: Label, t: Sys, p: Notes)
    requires Inv(s) && AllNoted(s, p) && t == Next(s, l)
    ensures Forgets(s, t, Noted(p, s, l)) <==> ForgetsFailure(s, l)
  {
    hide WorkerStep;
    match l
    case Act(r) =>
      if s.w.at.FinalWrite? || s.w.at.AddFinalizer? || s.w.at.Idle? {
        EntryCalls(s, r);
      } else if InRemoval(s.w.at) {
      } else {
        LiveGoesOn(s, r, t);
      }
    case Crash =>
    case Env(a) => EnvKeepsPass(s, a, t);
  }

  lemma LiveGoesOn(s: Sys, r: Reply, t: Sys)
    requires IsLive(s.w.at) && !s.w.at.FinalWrite? && !s.w.at.AddFinalizer? && t == WorkerStep(s, r)
    ensures !t.w.at.Idle?
  {
  }

  lemma CutShortIsUnfinished(s: Sys, l: Label, t: Sys, p: Notes)
    requires Inv(s) && AllNoted(s, p) && t == Next(s, l)
    ensures CutShort(s, t, Noted(p, s, l)) <==> LeavesUnfinished(s, l)
  {
    hide WorkerStep;
    match l
    case Act(r) =>
      if InRemoval(s.w.at) {
        RemovalCutShort(s, r, t, p);
      } else if IsLive(s.w.at) {
      }
    case Crash =>
    case Env(a) => EnvKeepsPass(s, a, t);
  }

  lemma RemovalCutShort(s: Sys, r: Reply, t: Sys, p: Notes)
    requires Inv(s) && InRemoval(s.w.at) && AllNoted(s, p) && t == WorkerStep(s, r)
    ensures CutShort(s, t, Noted(p, s, Act(r))) <==> LeavesUnfinished(s, Act(r))
  {
    hide WorkerStep;
    if InClosing(s.w.at) {
      CloseCalls(s, r);
    } else if s.w.at.BumpGet? || s.w.at.BumpWrite? || s.w.at.RemDeleteFailed? {
      BumpCutShort(s, r, t, p);
    } else if s.w.at.RemFind? {
      FindCalls(s, r);
    }
  }

  lemma BumpCutShort(s: Sys, r: Reply, t: Sys, p: Notes)
    requires s.w.at.BumpGet? || s.w.at.BumpWrite? || s.w.at.RemDeleteFailed?
    requires Inv(s) && AllNoted(s, p) && t == WorkerStep(s, r)
    ensures CutShort(s, t, Noted(p, s, Act(r))) <==> LeavesUnfinished(s, Act(r))
  {
    hide WorkerStep;
    BumpCalls(s, r);
  }

  lemma EnvTallied(s: Sys, a: Action, t: Sys)
    requires t == EnvStep(s, a)
    ensures t.h.il.created == s.h.il.created + Count(Appears(s.o.install, t.o.install))
    ensures t.h.rl.created == s.h.rl.created + Count(Appears(s.o.remove, t.o.remove))
    ensures t.h.il.external == s.h.il.external + Count(a.DeleteInstall? && Live(s.o.install))
    ensures t.h.rl.external == s.h.rl.external + Count(a.DeleteRemove? && Live(s.o.remove))
  {
  }

  lemma ActTallied(s: Sys, r: Reply, t: Sys)
    requires t == WorkerStep(s, r)
    ensures t.h.il.created == s.h.il.created + Count(Appears(s.o.install, t.o.install)) && t.h.il.external == s.h.il.external
    ensures t.h.rl.created == s.h.rl.created + Count(Appears(s.o.remove, t.o.remove)) && t.h.rl.external == s.h.rl.external
  {
    hide WorkerStep;
    if s.w.at.Idle? {
      IdleStarts(s, r, t);
    } else if InRemoval(s.w.at) {
      RemovalAppears(s, r, t);
      RemovalKeepsInstalls(s, r, t);
    } else {
      InstallAppears(s, r, t);
      LiveKeepsRemovals(s, r, t);
      LiveStaysLive(s, r, t);
    }
  }

  lemma StepTallied(s: Sys, l: Label, t: Sys, p: Notes, n: Tally)
    requires Inv(s) && AllNoted(s, p) && t == Next(s, l) && Agrees(s.h, n)
    ensures Agrees(t.h, Tallied(n, s, l, Noted(p, s, l)))
  {
    hide WorkerStep, ForgetsFailure, LeavesUnfinished, Forgets, CutShort, Noted, Inv, AllNoted;
    FailureIsLostExactlyHere(s, l, t);
    UnfinishedExactlyHere(s, l, t);
    ForgetsIsLost(s, l, t, p);
    CutShortIsUnfinished(s, l, t, p);
    match l
    case Act(r) => ActTallied(s, r, t);
    case Crash =>
    case Env(a) => EnvTallied(s, a, t);
  }

  /** Over every run the history counters are what an observer counts. */
  lemma {:induction false} TallyAgrees(s0: Sys, run: seq<Label>)
    requires Initial(s0)
    ensures Agrees(Exec(s0, run).h, TallyOf(s0, run))
  {
    if run != [] {
      hide WorkerStep, Tallied, Noted, Inv, AllNoted;
      var front, l := run[..|run| - 1], run[|run| - 1];
      TallyAgrees(s0, front);
      NotesAgree(s0, front);
      ExecSnoc(s0, run);
      StepTallied(Exec(s0, front), l, Exec(s0, run), NotesOf(s0, front), TallyOf(s0, front));
    }
  }

  // ----- Bounds ------------------------------------------------------------------------

  /**
   Decommission children that come into being are at most three, plus one for every pass
   cut short after a terminal outcome and one for every live child somebody else deletes.
   */
  lemma DecommissionBound(s0: Sys, run: seq<Label>)
    requires Initial(s0)
    ensures
      var n := TallyOf(s0, run);
      && n.removals <= MaxOnRemoveRetries + n.cutShort + n.removeDeletes
      && n.removals <= 1 + Exec(s0, run).o.c.status.removeRetries + n.cutShort + n.removeDeletes
  {
    TallyAgrees(s0, run);
    DecommissionAccounting(s0, run);
  }

  /**
   Install children that come into being are at most one more than the retry cap, plus one
   for every pass that forgot a failure and one for every live child somebody else deletes.
   */
  lemma InstallBound(s0: Sys, run: seq<Label>)
    requires Initial(s0)
    ensures
      var n := TallyOf(s0, run);
      && n.installs <= 1 + MaxInstallRetries + n.forgotten + n.installDeletes
      && n.installs <= 1 + Exec(s0, run).o.c.status.installRetries + n.forgotten + n.installDeletes
  {
    TallyAgrees(s0, run);
    InstallAccounting(s0, run);
  }

  /** In this run no pass is cut short after a terminal outcome and nobody else deletes the child. */
  predicate RemovalUndisturbed(s0: Sys, run: seq<Label>) {
    forall i :: 0 <= i < |run| ==>
      run[i] != Env(DeleteRemove)
      && !CutShort(Exec(s0, run[..i]), Exec(s0, run[..i + 1]), NotesOf(s0, run[..i + 1]))
  }

  /** In this run no pass forgets a failed install and nobody else deletes the child. */
  predicate InstallUndisturbed(s0: Sys, run: seq<Label>) {
    forall i :: 0 <= i < |run| ==>
      run[i] != Env(DeleteInstall)
      && !Forgets(Exec(s0, run[..i]), Exec(s0, run[..i + 1]), NotesOf(s0, run[..i + 1]))
  }

  lemma {:induction false} UndisturbedRemovalCounts(s0: Sys, run: seq<Label>)
    requires RemovalUndisturbed(s0, run)
    ensures TallyOf(s0, run).cutShort == 0 && TallyOf(s0, run).removeDeletes == 0
  {
    if run != [] {
      var front, k := run[..|run| - 1], |run| - 1;
      assert run[..k + 1] == run;
      ExecSnoc(s0, run);
      forall i | 0 <= i < |front|
        ensures front[i] != Env(DeleteRemove)
        ensures !CutShort(Exec(s0, front[..i]), Exec(s0, front[..i + 1]), NotesOf(s0, front[..i + 1]))
      {
        assert front[..i] == run[..i] && front[..i + 1] == run[..i + 1];
      }
      UndisturbedRemovalCounts(s0, front);
    }
  }

  lemma {:induction false} UndisturbedInstallCounts(s0: Sys, run: seq<Label>)
    requires InstallUndisturbed(s0, run)
    ensures TallyOf(s0, run).forgotten == 0 && TallyOf(s0, run).installDeletes == 0
  {
    if run != [] {
      var front, k := run[..|run| - 1], |run| - 1;
      assert run[..k + 1] == run;
      ExecSnoc(s0, run);
      forall i | 0 <= i < |front|
        ensures front[i] != Env(DeleteInstall)
        ensures !Forgets(Exec(s0, front[..i]), Exec(s0, front[..i + 1]), NotesOf(s0, front[..i + 1]))
      {
        assert front[..i] == run[..i] && front[..i + 1] == run[..i + 1];
      }
      UndisturbedInstallCounts(s0, front);
    }
  }

  /** In such a run at most three decommission children are ever created. */
  lemma DecommissionCapHolds(s0: Sys, run: seq<Label>)
    requires Initial(s0) && RemovalUndisturbed(s0, run)
    ensures TallyOf(s0, run).removals == Exec(s0, run).h.rl.created <= 3
  {
    UndisturbedRemovalCounts(s0, run);
    TallyAgrees(s0, run);
    DecommissionBound(s0, run);
  }

  /** In such a run the install is retried at most as often as documented. */
  lemma InstallCapHolds(s0: Sys, run: seq<Label>)
    requires Initial(s0) && InstallUndisturbed(s0, run)
    ensures TallyOf(s0, run).installs == Exec(s0, run).h.il.created <= 1 + 3
  {
    UndisturbedInstallCounts(s0, run);
    TallyAgrees(s0, run);
    InstallBound(s0, run);
  }
}
