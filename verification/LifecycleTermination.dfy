/**
 Every pass ends, whatever the worker is answered; and without API errors the
 removal of a configuration ends, whatever the decommission runs report.
 */
module LifecycleTermination {
  import opened Lifecycle
  import opened LifecycleCalls
  import opened LifecycleInvariant
  import opened LifecycleTheorems

  // ----- One pass -----------------------------------------------------------------

  function AttemptsLeft(tries: nat): nat {
    if tries < ConflictAttempts then ConflictAttempts - tries else 0
  }

  /** An upper bound on the calls the running pass still makes. */
  function Rank(w: Worker): nat {
    match w.at
    case Idle => 0
    case FinalWrite => 1
    case WriteBack => 2
    case InstallDelete => 2
    case SuspendWrite => 2
    case SuspendGet => 3
    case DayTwoCreate => 3
    case DayTwoUpdate => 3
    case DayTwoGet => 4
    case MarkDelete => 5
    case MarkWrite => 6 + 2 * AttemptsLeft(w.tries)
    case MarkGet => 7 + 2 * AttemptsLeft(w.tries)
    case InstallCreate => 18
    case InstallUpdate => 18
    case InstallGet => 19
    case GetMachine => 20
    case ListOwner => 21
    case AddFinalizer => 22
    case RemStatus => 1
    case Finalize => 1
    case RemDeleteFinal => 2
    case RemCreate => 2
    case RemClear => 3
    case RemCreateGet => 3
    case RemDeleteFailed => 4
    case BumpWrite => 5 + 2 * AttemptsLeft(w.tries)
    case BumpGet => 6 + 2 * AttemptsLeft(w.tries)
    case RemFind => 17
    case RemGetMachine => 18
    case RemCronDelete => 19
    case RemCronGet => 20
  }

  const PassLimit: nat := 22

  lemma RankDrops(s: Sys, r: Reply, t: Sys)
    requires t == WorkerStep(s, r) && !s.w.at.Idle?
    ensures Rank(t.w) < Rank(s.w)
  {
    if InRemoval(s.w.at) { RemovalRankDrops(s, r, t); } else { LiveRankDrops(s, r, t); }
  }

  lemma RemovalRankDrops(s: Sys, r: Reply, t: Sys)
    requires t == WorkerStep(s, r) && InRemoval(s.w.at)
    ensures Rank(t.w) < Rank(s.w)
  {
    if s.w.at.RemFind? {
      FindRankDrops(s, r, t);
    } else if s.w.at.RemDeleteFailed? {
      DeleteRankDrops(s, r, t);
    } else if s.w.at.RemClear? || s.w.at.BumpGet? || s.w.at.BumpWrite? {
      RetryRankDrops(s, r, t);
    } else if s.w.at.RemGetMachine? || s.w.at.RemCronGet? || s.w.at.RemCronDelete? {
      EntryRankDrops(s, r, t);
    } else {
      ExitRankDrops(s, r, t);
    }
  }

  lemma RetryRankDrops(s: Sys, r: Reply, t: Sys)
    requires s.w.at.RemClear? || s.w.at.BumpGet? || s.w.at.BumpWrite?
    requires t == WorkerStep(s, r)
    ensures Rank(t.w) < Rank(s.w)
  {
  }

  lemma EntryRankDrops(s: Sys, r: Reply, t: Sys)
    requires s.w.at.RemGetMachine? || s.w.at.RemCronGet? || s.w.at.RemCronDelete?
    requires t == WorkerStep(s, r)
    ensures Rank(t.w) < Rank(s.w)
  {
  }

  lemma ExitRankDrops(s: Sys, r: Reply, t: Sys)
    requires s.w.at.RemCreateGet? || s.w.at.RemCreate? || s.w.at.RemStatus? || s.w.at.RemDeleteFinal? || s.w.at.Finalize?
    requires t == WorkerStep(s, r)
    ensures Rank(t.w) < Rank(s.w)
  {
  }

  lemma FindRankDrops(s: Sys, r: Reply, t: Sys)
    requires s.w.at.RemFind? && t == StepRemFind(s, r)
    ensures Rank(t.w) < Rank(s.w)
  {
  }

  lemma DeleteRankDrops(s: Sys, r: Reply, t: Sys)
    requires s.w.at.RemDeleteFailed? && t == StepRemDeleteFailed(s, r)
    ensures Rank(t.w) < Rank(s.w)
  {
    var d := FailedDeleted(s);
    assert d.w == s.w;
    var e := CheckCap(d);
    assert Rank(e.w) < 4;
  }

  lemma LiveRankDrops(s: Sys, r: Reply, t: Sys)
    requires t == WorkerStep(s, r) && !InRemoval(s.w.at) && !s.w.at.Idle?
    ensures Rank(t.w) < Rank(s.w)
  {
  }

  /** The worker's calls in a run. */
  function Calls(run: seq<Label>): nat {
    if run == [] then 0 else (if run[0].Act? then 1 else 0) + Calls(run[1..])
  }

  /**
   However the environment interleaves and whatever each call is answered, a pass
   is over after its rank in calls, which never exceeds the limit.
   */
  lemma {:induction false} EveryPassEnds(s: Sys, run: seq<Label>)
    requires Calls(run) >= Rank(s.w)
    ensures exists k :: 0 <= k <= |run| && Exec(s, run[..k]).w.at.Idle?
    decreases |run|
  {
    if s.w.at.Idle? {
      assert run[..0] == [];
      assert Exec(s, run[..0]).w.at.Idle?;
    } else {
      var t := Next(s, run[0]);
      match run[0] {
        case Act(r) => RankDrops(s, r, t);
        case Crash =>
        case Env(a) => EnvKeepsWorker(s, a, t);
      }
      EveryPassEnds(t, run[1..]);
      var k :| 0 <= k <= |run[1..]| && Exec(t, run[1..][..k]).w.at.Idle?;
      assert run[..k + 1][1..] == run[1..][..k];
      assert Exec(s, run[..k + 1]).w.at.Idle?;
    }
  }

  lemma EnvKeepsWorker(s: Sys, a: Action, t: Sys)
    requires t == EnvStep(s, a)
    ensures t.w == s.w
  {
  }

  lemma RankBounded(w: Worker)
    ensures Rank(w) <= PassLimit
  {
  }

  // ----- A pass without API errors ---------------------------------------------------

  /** Runs the pass to its end, every call answered. */
  function Drain(s: Sys): (t: Sys)
    ensures t.w.at.Idle?
    decreases Rank(s.w)
  {
    if s.w.at.Idle? then s
    else
      RankDrops(s, Ok, WorkerStep(s, Ok));
      Drain(WorkerStep(s, Ok))
  }

  function Pass(s: Sys): Sys {
    Drain(WorkerStep(s, Ok))
  }

  /** Such a pass is a run of the system. */
  lemma {:induction false} DrainIsRun(s: Sys) returns (run: seq<Label>)
    ensures |run| <= Rank(s.w) && (forall l :: l in run ==> l == Act(Ok)) && Exec(s, run) == Drain(s)
    decreases Rank(s.w)
  {
    if s.w.at.Idle? {
      run := [];
    } else {
      var t := WorkerStep(s, Ok);
      RankDrops(s, Ok, t);
      var rest := DrainIsRun(t);
      run := [Act(Ok)] + rest;
      assert run[1..] == rest;
    }
  }

  // ----- Removal ------------------------------------------------------------------------

  /** Between passes: a deleting child goes away, an unfinished one finishes with the given verdict. */
  function Settle(s: Sys, success: bool): Sys {
    if !s.o.remove.present then s
    else if s.o.remove.deleting then EnvStep(s, ReapRemove)
    else if s.o.remove.succeeded || s.o.remove.failed then s
    else EnvStep(s, RemoveReports(success, !success))
  }

  function Round(s: Sys, success: bool): Sys {
    Pass(Settle(s, success))
  }

  function Rounds(s: Sys, verdicts: seq<bool>): Sys
    decreases |verdicts|
  {
    if verdicts == [] then s else Rounds(Round(s, verdicts[0]), verdicts[1..])
  }

  predicate Removable(s: Sys) {
    s.w.at.Idle? && s.o.c.stored && s.o.c.deleting
  }

  /** Remaining attempts first, then the stage of the child. */
  function Potential(s: Sys): nat {
    if !s.o.c.finalizer then 0
    else 2 * (if s.o.c.status.removeRetries < MaxOnRemoveRetries
              then MaxOnRemoveRetries - s.o.c.status.removeRetries else 1)
         + Count(!Live(s.o.remove))
  }

  /** The pass works on the committed configuration. */
  predicate Current(s: Sys) {
    && s.o.c.stored && s.o.c.deleting && s.o.c.finalizer
    && s.w.wc.rv == s.o.c.rv && s.w.wc.status.removeRetries == s.o.c.status.removeRetries
  }

  /** The Machine read in this pass is the stored one. */
  predicate Seen(s: Sys) {
    s.o.m.stored ==> s.w.mach.rv == s.o.m.rv
  }

  lemma ClosingFinishes(s: Sys)
    requires Current(s) && (s.w.at.RemClear? || s.w.at.RemDeleteFinal? || s.w.at.Finalize?)
    requires s.w.at.RemClear? ==> Seen(s)
    ensures !Drain(s).o.c.finalizer && Drain(s).o.c.stored && Drain(s).o.c.deleting
    decreases Rank(s.w)
  {
    var t := WorkerStep(s, Ok);
    RankDrops(s, Ok, t);
    if s.w.at.Finalize? {
      assert !t.o.c.finalizer && t.w.at.Idle?;
    } else {
      assert Current(t);
      ClosingFinishes(t);
    }
  }

  /** Where a round that does not finish leaves the system. */
  predicate Waiting(t: Sys, retries: nat, live: bool) {
    && t.o.c.stored && t.o.c.deleting && t.o.c.finalizer
    && t.o.c.status.removeRetries == retries && Live(t.o.remove) == live
  }

  predicate Finished(t: Sys) {
    t.o.c.stored && t.o.c.deleting && !t.o.c.finalizer
  }

  lemma StatusWriteWaits(s: Sys)
    requires Current(s) && s.w.at.RemStatus?
    ensures Waiting(Drain(s), s.o.c.status.removeRetries, Live(s.o.remove))
  {
    var t := WorkerStep(s, Ok);
    assert t.w.at.Idle? && Drain(t) == t;
  }

  lemma DrainTwice(s: Sys, t: Sys, u: Sys)
    requires s.w.at.RemCreateGet? && !s.o.remove.present && t == WorkerStep(s, Ok) && u == WorkerStep(t, Ok)
    ensures Drain(s) == Drain(t) == Drain(u)
  {
    hide WorkerStep;
    FindCalls(s, Ok);
  }

  lemma CreateWaits(s: Sys)
    requires Current(s) && s.w.at.RemCreateGet? && !s.o.remove.present
    ensures Waiting(Drain(s), s.o.c.status.removeRetries, true)
  {
    var t := WorkerStep(s, Ok);
    var u := WorkerStep(t, Ok);
    assert Drain(s) == Drain(t) && Drain(t) == Drain(u) by { DrainTwice(s, t, u); }
    hide WorkerStep;
    FindCalls(s, Ok);
    FindCalls(t, Ok);
    assert u.w.at.RemStatus? && Live(u.o.remove) && Current(u);
    StatusWriteWaits(u);
  }

  lemma BumpCommits(s: Sys) returns (u: Sys)
    requires Current(s) && s.w.at.BumpGet?
    ensures Drain(s) == Drain(u) && u.w.at.RemDeleteFailed? && Current(u) && u.o.remove == s.o.remove
    ensures u.o.c.status.removeRetries == s.o.c.status.removeRetries + 1 && u.o.m == s.o.m && u.w.mach == s.w.mach
  {
    var t := WorkerStep(s, Ok);
    assert t.w.at.BumpWrite? && t.w.latest == s.o.c;
    u := WorkerStep(t, Ok);
    assert u == Bumped(t);
    assert Drain(s) == Drain(t) == Drain(u);
  }

  lemma DeleteDecides(s: Sys) returns (u: Sys)
    requires Current(s) && s.w.at.RemDeleteFailed? && Live(s.o.remove)
    ensures Drain(s) == Drain(u) && Current(u) && !Live(u.o.remove) && u.o.c == s.o.c
    ensures u.o.m == s.o.m && u.w.mach == s.w.mach
    ensures if s.o.c.status.removeRetries >= MaxOnRemoveRetries
            then u.w.at.RemClear? || u.w.at.RemDeleteFinal? else u.w.at.RemStatus?
  {
    u := WorkerStep(s, Ok);
    var d := FailedDeleted(s);
    assert d.w == s.w && d.o == s.o.(remove := s.o.remove.(deleting := true));
    assert u == CheckCap(d);
    assert Drain(s) == Drain(u);
  }

  lemma FailureCounts(s: Sys)
    requires Current(s) && Seen(s) && s.w.at.BumpGet? && Live(s.o.remove)
    ensures
      var retries := s.o.c.status.removeRetries + 1;
      if retries >= MaxOnRemoveRetries then Finished(Drain(s)) else Waiting(Drain(s), retries, false)
  {
    var u := BumpCommits(s);
    var v := DeleteDecides(u);
    if v.w.at.RemStatus? { StatusWriteWaits(v); } else { ClosingFinishes(v); }
  }

  lemma FindDecides(s: Sys)
    requires Current(s) && Seen(s) && s.w.at.RemFind?
    requires s.o.remove.present ==> !s.o.remove.deleting && (s.o.remove.succeeded || s.o.remove.failed)
    ensures
      var t, retries := Drain(s), s.o.c.status.removeRetries;
      || Finished(t)
      || (!s.o.remove.present && Waiting(t, retries, true))
      || (s.o.remove.present && retries + 1 < MaxOnRemoveRetries && Waiting(t, retries + 1, false))
  {
    var t := WorkerStep(s, Ok);
    assert Current(t);
    if !s.o.remove.present {
      if Buildable(s.w.wc, s.w.mach) { CreateWaits(t); } else { ClosingFinishes(t); }
    } else if s.o.remove.succeeded {
      ClosingFinishes(t);
    } else {
      FailureCounts(t);
    }
  }

  lemma MachineDecides(s: Sys)
    requires s.o.c.stored && s.o.c.deleting && s.o.c.finalizer && s.w.wc == s.o.c && s.w.at.RemGetMachine?
    requires s.o.remove.present ==> !s.o.remove.deleting && (s.o.remove.succeeded || s.o.remove.failed)
    ensures
      var t, retries := Drain(s), s.o.c.status.removeRetries;
      || Finished(t)
      || (!s.o.remove.present && Waiting(t, retries, true))
      || (s.o.remove.present && retries + 1 < MaxOnRemoveRetries && Waiting(t, retries + 1, false))
  {
    var t := WorkerStep(s, Ok);
    assert Current(t);
    if s.o.m.stored && s.w.wc.spec.onRemove { FindDecides(t); } else { ClosingFinishes(t); }
  }

  lemma PassReachesMachine(s: Sys) returns (u: Sys)
    requires Removable(s) && s.o.c.finalizer
    ensures Pass(s) == Drain(u)
    ensures u.w.at.RemGetMachine? && u.w.wc == u.o.c == s.o.c && u.o.remove == s.o.remove
  {
    var t := WorkerStep(s, Ok);
    assert t.w.at.RemCronGet?;
    var v := WorkerStep(t, Ok);
    assert Drain(t) == Drain(v);
    if v.w.at.RemCronDelete? {
      u := WorkerStep(v, Ok);
      assert Drain(v) == Drain(u);
    } else {
      u := v;
    }
  }

  lemma RoundProgress(s: Sys, success: bool)
    requires Removable(s) && s.o.c.finalizer
    ensures Removable(Round(s, success)) && Potential(Round(s, success)) < Potential(s)
  {
    var r := Settle(s, success);
    assert Removable(r) && r.o.c == s.o.c;
    var u := PassReachesMachine(r);
    MachineDecides(u);
  }

  lemma FinishedStays(s: Sys, success: bool)
    requires Removable(s) && !s.o.c.finalizer
    ensures Removable(Round(s, success)) && !Round(s, success).o.c.finalizer
  {
    var r := Settle(s, success);
    assert r.o.c == s.o.c && WorkerStep(r, Ok) == r && Drain(r) == r;
  }

  /** Whatever the runs report, the finalizer is gone after as many rounds as the potential. */
  lemma {:induction false} RemovalEnds(s: Sys, verdicts: seq<bool>)
    requires Removable(s) && |verdicts| >= Potential(s)
    ensures !Rounds(s, verdicts).o.c.finalizer
    decreases |verdicts|
  {
    if verdicts != [] {
      if s.o.c.finalizer { RoundProgress(s, verdicts[0]); } else { FinishedStays(s, verdicts[0]); }
      RemovalEnds(Round(s, verdicts[0]), verdicts[1..]);
    }
  }

  lemma SevenRoundsSuffice(s: Sys, verdicts: seq<bool>)
    requires Removable(s) && |verdicts| >= 7
    ensures !Rounds(s, verdicts).o.c.finalizer
  {
    RemovalEnds(s, verdicts);
  }

  /** A round is a run of the system, so the bound is one on actions as well. */
  lemma RoundIsRun(s: Sys, success: bool) returns (run: seq<Label>)
    ensures |run| <= PassLimit + 2 && Exec(s, run) == Round(s, success)
  {
    var r := Settle(s, success);
    var t := WorkerStep(r, Ok);
    var drain := DrainIsRun(t);
    RankBounded(t.w);
    var pass := [Act(Ok)] + drain;
    assert pass[1..] == drain;
    if r == s {
      run := pass;
    } else {
      var l := if s.o.remove.deleting then Env(ReapRemove) else Env(RemoveReports(success, !success));
      run := [l] + pass;
      assert run[1..] == pass;
      assert Next(s, l) == r;
    }
  }

  lemma {:induction false} RoundsAreRun(s: Sys, verdicts: seq<bool>) returns (run: seq<Label>)
    ensures |run| <= (PassLimit + 2) * |verdicts| && Exec(s, run) == Rounds(s, verdicts)
    decreases |verdicts|
  {
    if verdicts == [] {
      run := [];
    } else {
      var first := RoundIsRun(s, verdicts[0]);
      var rest := RoundsAreRun(Round(s, verdicts[0]), verdicts[1..]);
      run := first + rest;
      ExecConcat(s, first, rest);
    }
  }
}
