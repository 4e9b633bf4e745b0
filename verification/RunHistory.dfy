/**
 The health of a NixCronJob. Two timestamps summarize every run ever observed, although
 the Jobs themselves are garbage-collected, and the health of a cluster is read off them.
 */
module RunHistory {
  import opened Options

  /** Points in time; only their order matters. */
  type Time = int

  type Uid = string

  datatype Verdict = Failed | Complete

  datatype Condition = Condition(kind: Option<Verdict>, holds: bool, at: Time)

  datatype Job = Job(owners: seq<Uid>, conditions: seq<Condition>, completed: Option<Time>)

  datatype CronJob = CronJob(uid: Uid, active: seq<string>, lastSuccessful: Option<Time>)

  datatype Phase = Unset | Ready | Degraded | Failing | Progressing | Suspended

  datatype Stall = Git | Infra

  /** The conditions of a NixCronJob; one that was never set is absent. */
  datatype Conditions = Conditions(
    ready: Option<bool>, stalled: Option<Stall>, gitSynced: Option<bool>, progressing: Option<bool>, reconciling: bool)

  /** The status of a NixCronJob. */
  datatype Status = Status(
    phase: Phase, cond: Conditions, resolved: string, rolledOut: string, active: seq<string>,
    lastFailed: Option<Time>, lastSucceeded: Option<Time>)

  // ----- Finished runs -----------------------------------------------------------

  /** The candidate is newer; without a current time it always is. */
  predicate Later(current: Option<Time>, candidate: Option<Time>) {
    current.None? || (candidate.Some? && current.value < candidate.value)
  }

  predicate OwnedBy(job: Job, owner: Uid) {
    owner != "" && owner in job.owners
  }

  function FindCondition(conditions: seq<Condition>, want: Verdict): Option<Condition> {
    if conditions == [] then None
    else if conditions[0].kind == Some(want) then Some(conditions[0])
    else FindCondition(conditions[1..], want)
  }

  function FinishedAt(job: Job, want: Verdict): Option<Time> {
    var cond := FindCondition(job.conditions, want);
    if cond.None? || !cond.value.holds then None
    else if job.completed.Some? then job.completed
    else Some(cond.value.at)
  }

  predicate Counts(job: Job, uid: Uid, cron: Uid, want: Verdict) {
    (OwnedBy(job, uid) || OwnedBy(job, cron)) && FinishedAt(job, want).Some?
  }

  /** The latest such run among the Jobs and the time known before. */
  function Scan(jobs: seq<Job>, uid: Uid, cron: Uid, want: Verdict, known: Option<Time>): Option<Time> {
    if jobs == [] then known
    else
      var before := Scan(jobs[..|jobs| - 1], uid, cron, want, known);
      var job := jobs[|jobs| - 1];
      if Counts(job, uid, cron, want) && Later(before, FinishedAt(job, want)) then FinishedAt(job, want) else before
  }

  function Newer(known: Option<Time>, seen: Option<Time>): Option<Time> {
    if Later(known, seen) then seen else known
  }

  predicate LatestRunFailed(lastFailed: Option<Time>, lastSucceeded: Option<Time>) {
    lastFailed.Some? && (lastSucceeded.None? || lastSucceeded.value < lastFailed.value)
  }

  // ----- One reconcile --------------------------------------------------------------

  /** What a reconcile finds; `jobs` is absent when they cannot be listed, `cron` when there is none. */
  datatype Finding =
    | IsSuspended
    | SourceError
    | InfraNotReady(revision: string)
    | Seen(revision: string, cron: Option<CronJob>, jobs: Option<seq<Job>>)

  function Stalled(st: Status, reason: Stall): Status {
    st.(phase := Degraded, cond := st.cond.(stalled := Some(reason), ready := Some(false)))
  }

  function Healthy(st: Status, revision: string): Status {
    st.(phase := Ready, rolledOut := revision,
        cond := st.cond.(ready := Some(true), progressing := Some(false), stalled := None))
  }

  function Broken(st: Status, revision: string): Status {
    st.(phase := Degraded, rolledOut := revision, cond := st.cond.(ready := Some(false), stalled := None))
  }

  function Advancing(st: Status): Status {
    st.(phase := Progressing, cond := st.cond.(progressing := Some(true), ready := Some(false)))
  }

  /** Every reconcile says that it is at work, and whether the revision could be resolved. */
  function Begun(st: Status): Status {
    st.(cond := st.cond.(reconciling := true))
  }

  function Resolved(st: Status, revision: string): Status {
    st.(resolved := revision, cond := st.cond.(gitSynced := Some(true)))
  }

  /** The times after looking at a CronJob and the Jobs. */
  function Failure(st: Status, uid: Uid, cron: CronJob, jobs: Option<seq<Job>>): Option<Time> {
    if jobs.None? then st.lastFailed else Scan(jobs.value, uid, cron.uid, Failed, st.lastFailed)
  }

  function Success(st: Status, uid: Uid, cron: CronJob, jobs: Option<seq<Job>>): Option<Time> {
    var known := Newer(st.lastSucceeded, cron.lastSuccessful);
    if jobs.None? then known else Scan(jobs.value, uid, cron.uid, Complete, known)
  }

  function Observed(st: Status, uid: Uid, f: Finding): Status
    requires f.Seen?
  {
    if f.cron.None? then Advancing(st)
    else
      var failed, succeeded := Failure(st, uid, f.cron.value, f.jobs), Success(st, uid, f.cron.value, f.jobs);
      var seen := st.(active := f.cron.value.active, lastFailed := failed, lastSucceeded := succeeded);
      if LatestRunFailed(failed, succeeded) then Broken(seen, f.revision) else Healthy(seen, f.revision)
  }

  function Reconciled(st: Status, uid: Uid, f: Finding): Status {
    var begun := Begun(st);
    match f
    case IsSuspended => begun.(phase := Suspended)
    case SourceError => Stalled(begun.(cond := begun.cond.(gitSynced := Some(false))), Git)
    case InfraNotReady(revision) => Stalled(Resolved(begun, revision), Infra)
    case Seen(revision, _, _) => Observed(Resolved(begun, revision), uid, f)
  }

  /** The NixCronJob object whose status the reconcile updates in place. */
  class NixCronJob {
    const uid: Uid
    var phase: Phase
    var ready: Option<bool>
    var stalled: Option<Stall>
    var gitSynced: Option<bool>
    var progressing: Option<bool>
    var reconciling: bool
    var resolved: string
    var rolledOut: string
    var active: seq<string>
    var lastFailed: Option<Time>
    var lastSucceeded: Option<Time>

    constructor (uid: Uid)
      ensures this.uid == uid && View() == NewStatus
    {
      this.uid := uid;
      phase, ready, stalled, gitSynced, progressing, reconciling := Unset, None, None, None, None, false;
      resolved, rolledOut, active, lastFailed, lastSucceeded := "", "", [], None, None;
    }

    ghost function View(): Status
      reads this
    {
      Status(phase, Conditions(ready, stalled, gitSynced, progressing, reconciling),
             resolved, rolledOut, active, lastFailed, lastSucceeded)
    }

    method MarkStalled(reason: Stall)
      modifies this
      ensures View() == Stalled(old(View()), reason)
    {
      phase := Degraded;
      stalled := Some(reason);
      ready := Some(false);
    }

    method ClearStalled()
      modifies `stalled
      ensures stalled == None
    {
      stalled := None;
    }

    method MarkReady(revision: string)
      modifies this
      ensures View() == Healthy(old(View()), revision)
    {
      phase := Ready;
      rolledOut := revision;
      ready := Some(true);
      progressing := Some(false);
      ClearStalled();
    }

    method MarkProgressing()
      modifies this
      ensures View() == Advancing(old(View()))
    {
      phase := Progressing;
      progressing := Some(true);
      ready := Some(false);
    }

    /** One scan over the Jobs answers for both verdicts. */
    method LastFinishedRuns(cron: CronJob, jobs: Option<seq<Job>>) returns (failed: Option<Time>, succeeded: Option<Time>)
      ensures failed == Failure(View(), uid, cron, jobs) && succeeded == Success(View(), uid, cron, jobs)
    {
      failed := lastFailed;
      succeeded := lastSucceeded;
      if Later(succeeded, cron.lastSuccessful) {
        succeeded := cron.lastSuccessful;
      }
      if jobs.None? {
        return;
      }
      ghost var known := succeeded;
      var i := 0;
      while i < |jobs.value|
        invariant 0 <= i <= |jobs.value|
        invariant failed == Scan(jobs.value[..i], uid, cron.uid, Failed, lastFailed)
        invariant succeeded == Scan(jobs.value[..i], uid, cron.uid, Complete, known)
      {
        var job := jobs.value[i];
        assert jobs.value[..i + 1][..i] == jobs.value[..i];
        if OwnedBy(job, uid) || OwnedBy(job, cron.uid) {
          var at := FinishedAt(job, Failed);
          if at.Some? && Later(failed, at) {
            failed := at;
          }
          at := FinishedAt(job, Complete);
          if at.Some? && Later(succeeded, at) {
            succeeded := at;
          }
        }
        i := i + 1;
      }
      assert jobs.value[..i] == jobs.value;
    }

    method Observe(f: Finding)
      requires f.Seen?
      modifies this
      ensures View() == Observed(old(View()), uid, f)
    {
      if f.cron.None? {
        MarkProgressing();
        return;
      }
      active := f.cron.value.active;
      var failed, succeeded := LastFinishedRuns(f.cron.value, f.jobs);
      lastFailed := failed;
      lastSucceeded := succeeded;
      if LatestRunFailed(failed, succeeded) {
        phase := Degraded;
        ready := Some(false);
        rolledOut := f.revision;
        ClearStalled();
        return;
      }
      MarkReady(f.revision);
    }

    method Reconcile(f: Finding)
      modifies this
      ensures View() == Reconciled(old(View()), uid, f)
    {
      reconciling := true;
      if f.IsSuspended? {
        phase := Suspended;
        return;
      }
      if f.SourceError? {
        gitSynced := Some(false);
        MarkStalled(Git);
        return;
      }
      resolved := f.revision;
      gitSynced := Some(true);
      if f.InfraNotReady? {
        MarkStalled(Infra);
        return;
      }
      Observe(f);
    }
  }

  const NewStatus := Status(Unset, Conditions(None, None, None, None, false), "", "", [], None, None)

  // ----- Whole runs --------------------------------------------------------------------

  /** A reconcile and whether its status write was accepted. */
  datatype Attempt = Attempt(finding: Finding, accepted: bool)

  function After(st: Status, uid: Uid, a: Attempt): Status {
    if a.accepted then Reconciled(st, uid, a.finding) else st
  }

  function Run(st: Status, uid: Uid, attempts: seq<Attempt>): Status {
    if attempts == [] then st
    else After(Run(st, uid, attempts[..|attempts| - 1]), uid, attempts[|attempts| - 1])
  }

  /** The finish times of the owned Jobs with a verdict. */
  function Times(jobs: seq<Job>, uid: Uid, cron: Uid, want: Verdict): set<Time> {
    set job | job in jobs && Counts(job, uid, cron, want) :: FinishedAt(job, want).value
  }

  /** What one committed reconcile saw of a verdict, from Jobs and from the CronJob's own record. */
  function SeenBy(a: Attempt, uid: Uid, want: Verdict): set<Time> {
    if !a.accepted || !a.finding.Seen? || a.finding.cron.None? then {}
    else
      var cron := a.finding.cron.value;
      (if a.finding.jobs.None? then {} else Times(a.finding.jobs.value, uid, cron.uid, want))
      + (if want.Complete? && cron.lastSuccessful.Some? then {cron.lastSuccessful.value} else {})
  }

  /** Everything ever seen, whether or not its Job still exists. */
  function EverSeen(attempts: seq<Attempt>, uid: Uid, want: Verdict): set<Time> {
    if attempts == [] then {}
    else EverSeen(attempts[..|attempts| - 1], uid, want) + SeenBy(attempts[|attempts| - 1], uid, want)
  }

  /** The latest of some times and a time known before. */
  predicate IsLatest(t: Option<Time>, known: Option<Time>, times: set<Time>) {
    && (t.None? ==> known.None? && times == {})
    && (t.Some? ==> (t == known || t.value in times)
                    && (known.Some? ==> known.value <= t.value)
                    && forall u :: u in times ==> u <= t.value)
  }

  lemma LatestUnique(s: Option<Time>, t: Option<Time>, known: Option<Time>, times: set<Time>)
    requires IsLatest(s, known, times) && IsLatest(t, known, times)
    ensures s == t
  {
    if s.Some? && t.Some? {
      assert s.value <= t.value && t.value <= s.value;
      assert s == Some(s.value);
    }
  }

  lemma {:induction false} ScanIsLatest(jobs: seq<Job>, uid: Uid, cron: Uid, want: Verdict, known: Option<Time>)
    ensures IsLatest(Scan(jobs, uid, cron, want, known), known, Times(jobs, uid, cron, want))
  {
    if jobs != [] {
      var front, job := jobs[..|jobs| - 1], jobs[|jobs| - 1];
      assert jobs == front + [job];
      ScanIsLatest(front, uid, cron, want, known);
      var own := if Counts(job, uid, cron, want) then {FinishedAt(job, want).value} else {};
      assert Times(jobs, uid, cron, want) == Times(front, uid, cron, want) + own;
    }
  }

  lemma LatestChains(s: Option<Time>, t: Option<Time>, known: Option<Time>, first: set<Time>, second: set<Time>)
    requires IsLatest(s, known, first) && IsLatest(t, s, second)
    ensures IsLatest(t, known, first + second)
  {
  }

  lemma SuccessIsLatest(st: Status, uid: Uid, cron: CronJob, jobs: seq<Job>)
    ensures
      var own := if cron.lastSuccessful.Some? then {cron.lastSuccessful.value} else {};
      IsLatest(Success(st, uid, cron, Some(jobs)), st.lastSucceeded, own + Times(jobs, uid, cron.uid, Complete))
  {
    var own := if cron.lastSuccessful.Some? then {cron.lastSuccessful.value} else {};
    var known := Newer(st.lastSucceeded, cron.lastSuccessful);
    assert IsLatest(known, st.lastSucceeded, own);
    ScanIsLatest(jobs, uid, cron.uid, Complete, known);
    LatestChains(known, Scan(jobs, uid, cron.uid, Complete, known), st.lastSucceeded, own,
                 Times(jobs, uid, cron.uid, Complete));
  }

  lemma StepIsLatest(st: Status, uid: Uid, a: Attempt)
    ensures IsLatest(After(st, uid, a).lastFailed, st.lastFailed, SeenBy(a, uid, Failed))
    ensures IsLatest(After(st, uid, a).lastSucceeded, st.lastSucceeded, SeenBy(a, uid, Complete))
  {
    if a.accepted && a.finding.Seen? && a.finding.cron.Some? && a.finding.jobs.Some? {
      var cron, jobs := a.finding.cron.value, a.finding.jobs.value;
      ScanIsLatest(jobs, uid, cron.uid, Failed, st.lastFailed);
      SuccessIsLatest(st, uid, cron, jobs);
      var own := if cron.lastSuccessful.Some? then {cron.lastSuccessful.value} else {};
      assert own + Times(jobs, uid, cron.uid, Complete) == SeenBy(a, uid, Complete);
      assert Times(jobs, uid, cron.uid, Failed) == SeenBy(a, uid, Failed);
    }
  }

  /**
   Over any run, however Jobs are pruned between reconciles, the stored times are the
   latest failure and the latest success ever observed.
   */
  lemma {:induction false} TimesAreLatest(uid: Uid, attempts: seq<Attempt>)
    ensures
      var st := Run(NewStatus, uid, attempts);
      && IsLatest(st.lastFailed, None, EverSeen(attempts, uid, Failed))
      && IsLatest(st.lastSucceeded, None, EverSeen(attempts, uid, Complete))
  {
    if attempts != [] {
      var front, last := attempts[..|attempts| - 1], attempts[|attempts| - 1];
      TimesAreLatest(uid, front);
      var st := Run(NewStatus, uid, front);
      StepIsLatest(st, uid, last);
      LatestChains(st.lastFailed, After(st, uid, last).lastFailed, None,
                   EverSeen(front, uid, Failed), SeenBy(last, uid, Failed));
      LatestChains(st.lastSucceeded, After(st, uid, last).lastSucceeded, None,
                   EverSeen(front, uid, Complete), SeenBy(last, uid, Complete));
    }
  }

  /** A failure no success came after. */
  predicate Unanswered(f: Time, successes: set<Time>) {
    forall s :: s in successes ==> s < f
  }

  predicate EndsInFailure(failures: set<Time>, successes: set<Time>) {
    exists f :: f in failures && Unanswered(f, successes)
  }

  /** The stored times say "the latest run failed" exactly if the whole history does. */
  lemma VerdictIsHistorical(uid: Uid, attempts: seq<Attempt>)
    ensures
      var st := Run(NewStatus, uid, attempts);
      LatestRunFailed(st.lastFailed, st.lastSucceeded)
      <==> EndsInFailure(EverSeen(attempts, uid, Failed), EverSeen(attempts, uid, Complete))
  {
    TimesAreLatest(uid, attempts);
    var st := Run(NewStatus, uid, attempts);
    var failures, successes := EverSeen(attempts, uid, Failed), EverSeen(attempts, uid, Complete);
    if LatestRunFailed(st.lastFailed, st.lastSucceeded) {
      assert st.lastFailed.value in failures && Unanswered(st.lastFailed.value, successes);
    }
    forall f | f in failures && Unanswered(f, successes)
      ensures LatestRunFailed(st.lastFailed, st.lastSucceeded)
    {
      UnansweredStays(st.lastFailed, st.lastSucceeded, failures, successes, f);
    }
  }

  lemma UnansweredStays(failed: Option<Time>, succeeded: Option<Time>, failures: set<Time>, successes: set<Time>, f: Time)
    requires IsLatest(failed, None, failures) && IsLatest(succeeded, None, successes)
    requires f in failures && Unanswered(f, successes)
    ensures LatestRunFailed(failed, succeeded)
  {
    assert failed.Some? && f <= failed.value;
    if succeeded.Some? { assert succeeded.value in successes; }
  }

  predicate NotEarlier(before: Option<Time>, after: Option<Time>) {
    before.None? || (after.Some? && before.value <= after.value)
  }

  /** Both times only move forward, whatever a reconcile finds and whether or not it is committed. */
  lemma TimesMoveForward(st: Status, uid: Uid, a: Attempt)
    ensures NotEarlier(st.lastFailed, After(st, uid, a).lastFailed)
    ensures NotEarlier(st.lastSucceeded, After(st, uid, a).lastSucceeded)
  {
    StepIsLatest(st, uid, a);
  }

  function Owned(jobs: seq<Job>, uid: Uid, cron: Uid): seq<Job> {
    if jobs == [] then []
    else
      var job := jobs[|jobs| - 1];
      Owned(jobs[..|jobs| - 1], uid, cron) + (if OwnedBy(job, uid) || OwnedBy(job, cron) then [job] else [])
  }

  lemma {:induction false} OwnedMembers(jobs: seq<Job>, uid: Uid, cron: Uid)
    ensures forall job :: job in Owned(jobs, uid, cron) <==> job in jobs && (OwnedBy(job, uid) || OwnedBy(job, cron))
  {
    if jobs != [] {
      var front := jobs[..|jobs| - 1];
      assert jobs == front + [jobs[|jobs| - 1]];
      OwnedMembers(front, uid, cron);
    }
  }

  /** Jobs of other owners in the namespace make no difference. */
  lemma ForeignJobsAreIgnored(st: Status, uid: Uid, revision: string, cron: CronJob, jobs: seq<Job>)
    ensures
      Reconciled(st, uid, Seen(revision, Some(cron), Some(jobs)))
      == Reconciled(st, uid, Seen(revision, Some(cron), Some(Owned(jobs, uid, cron.uid))))
  {
    OwnedMembers(jobs, uid, cron.uid);
    SameTimes(jobs, Owned(jobs, uid, cron.uid), uid, cron.uid, Failed, st.lastFailed);
    SameTimes(jobs, Owned(jobs, uid, cron.uid), uid, cron.uid, Complete, Newer(st.lastSucceeded, cron.lastSuccessful));
  }

  lemma SameTimes(a: seq<Job>, b: seq<Job>, uid: Uid, cron: Uid, want: Verdict, known: Option<Time>)
    requires forall job :: Counts(job, uid, cron, want) ==> (job in a <==> job in b)
    ensures Scan(a, uid, cron, want, known) == Scan(b, uid, cron, want, known)
  {
    assert Times(a, uid, cron, want) == Times(b, uid, cron, want);
    ScanIsLatest(a, uid, cron, want, known);
    ScanIsLatest(b, uid, cron, want, known);
    LatestUnique(Scan(a, uid, cron, want, known), Scan(b, uid, cron, want, known), known, Times(a, uid, cron, want));
  }

  // ----- The cluster's view ----------------------------------------------------------------

  datatype MemberStatus = Pending | Applying | Applied | MemberFailed

  datatype ClusterPhase = Blocked | Converging | ClusterDegraded | ClusterReady

  /** The converge child waits for infrastructure; stalls for other reasons do not count. */
  predicate ConvergeStall(cron: Option<Status>) {
    cron.Some? && cron.value.cond.stalled == Some(Infra)
  }

  predicate Fails(st: Status) {
    LatestRunFailed(st.lastFailed, st.lastSucceeded) || st.phase.Failing? || st.phase.Degraded?
  }

  function CoarseMemberStatus(cron: Option<Status>, prev: Option<MemberStatus>): MemberStatus {
    if cron.None? then Pending
    else if ConvergeStall(cron) then if prev.Some? then prev.value else Pending
    else if LatestRunFailed(cron.value.lastFailed, cron.value.lastSucceeded) then MemberFailed
    else
      match cron.value.phase
      case Failing => MemberFailed
      case Degraded => MemberFailed
      case Ready => Applied
      case _ =>
        if |cron.value.active| > 0 then Applying
        else if cron.value.lastSucceeded.Some? then Applied
        else Pending
  }

  function PhaseOf(cron: Option<Status>, totalMembers: nat): ClusterPhase {
    if totalMembers == 0 then Blocked
    else if cron.None? then Converging
    else if ConvergeStall(cron) then Blocked
    else if LatestRunFailed(cron.value.lastFailed, cron.value.lastSucceeded) then ClusterDegraded
    else
      match cron.value.phase
      case Failing => ClusterDegraded
      case Degraded => ClusterDegraded
      case Ready => ClusterReady
      case _ => if cron.value.lastSucceeded.Some? then ClusterReady else Converging
  }

  /**
   If over its whole history the latest run of the converge child failed, the cluster
   reports it: unless the child now waits for infrastructure, the cluster is Degraded and
   every member Failed, whatever the child's phase and the member's earlier status.
   */
  lemma FailureShows(uid: Uid, attempts: seq<Attempt>, totalMembers: nat, prev: Option<MemberStatus>)
    requires totalMembers > 0 && !ConvergeStall(Some(Run(NewStatus, uid, attempts)))
    requires EndsInFailure(EverSeen(attempts, uid, Failed), EverSeen(attempts, uid, Complete))
    ensures PhaseOf(Some(Run(NewStatus, uid, attempts)), totalMembers) == ClusterDegraded
    ensures CoarseMemberStatus(Some(Run(NewStatus, uid, attempts)), prev) == MemberFailed
  {
    VerdictIsHistorical(uid, attempts);
  }

  /** A reconcile that sees the failed run leaves no stall behind to hide it. */
  lemma SeenFailureIsNotStalled(st: Status, uid: Uid, f: Finding)
    requires f.Seen? && f.cron.Some?
    ensures
      var after := Reconciled(st, uid, f);
      && !ConvergeStall(Some(after))
      && (after.phase.Degraded? <==> LatestRunFailed(after.lastFailed, after.lastSucceeded))
      && (after.phase.Ready? <==> !LatestRunFailed(after.lastFailed, after.lastSucceeded))
  {
  }

  /** The cluster's phase and its members' statuses never contradict each other. */
  lemma PhaseMatchesMembers(cron: Status, totalMembers: nat, prev: Option<MemberStatus>)
    requires totalMembers > 0 && !ConvergeStall(Some(cron))
    ensures PhaseOf(Some(cron), totalMembers).ClusterDegraded? <==> CoarseMemberStatus(Some(cron), prev).MemberFailed?
    ensures PhaseOf(Some(cron), totalMembers).ClusterDegraded? <==> Fails(cron)
    ensures PhaseOf(Some(cron), totalMembers).ClusterReady? ==>
              CoarseMemberStatus(Some(cron), prev) in {Applied, Applying}
    ensures CoarseMemberStatus(Some(cron), prev).Applied? ==> PhaseOf(Some(cron), totalMembers).ClusterReady?
  {
  }

  /**
   Once a reconcile has seen the child's runs, the cluster's phase and its members' status
   are decided by the whole history: failed exactly if that ends in a failure, however the
   Jobs were pruned and whatever stall or phase there was before.
   */
  lemma HealthIsHistorical(uid: Uid, attempts: seq<Attempt>, last: Attempt, totalMembers: nat, prev: Option<MemberStatus>)
    requires totalMembers > 0 && last.accepted && last.finding.Seen? && last.finding.cron.Some?
    ensures
      var all := attempts + [last];
      var st, failed := Run(NewStatus, uid, all), EndsInFailure(EverSeen(all, uid, Failed), EverSeen(all, uid, Complete));
      && PhaseOf(Some(st), totalMembers) == (if failed then ClusterDegraded else ClusterReady)
      && CoarseMemberStatus(Some(st), prev) == (if failed then MemberFailed else Applied)
  {
    hide Reconciled, EverSeen;
    var all := attempts + [last];
    assert all[..|attempts|] == attempts;
    VerdictIsHistorical(uid, all);
    SeenFailureIsNotStalled(Run(NewStatus, uid, attempts), uid, last.finding);
  }

  // ----- What counts as a run, said without the scan ---------------------------------------------

  /** The first condition of the kind, holding: the run finished when the Job completed, or else at the transition. */
  predicate FinishedBy(job: Job, want: Verdict, i: nat, t: Time) {
    && i < |job.conditions| && job.conditions[i].kind == Some(want) && job.conditions[i].holds
    && (forall j :: 0 <= j < i ==> job.conditions[j].kind != Some(want))
    && t == if job.completed.Some? then job.completed.value else job.conditions[i].at
  }

  ghost predicate FinishedWith(job: Job, want: Verdict, t: Time) {
    exists i :: FinishedBy(job, want, i, t)
  }

  predicate Belongs(job: Job, id: Uid) {
    id != "" && exists k :: 0 <= k < |job.owners| && job.owners[k] == id
  }

  lemma {:induction false} FirstCondition(conditions: seq<Condition>, want: Verdict) returns (i: nat)
    ensures i <= |conditions| && forall j :: 0 <= j < i ==> conditions[j].kind != Some(want)
    ensures i < |conditions| ==> conditions[i].kind == Some(want)
    ensures FindCondition(conditions, want) == if i < |conditions| then Some(conditions[i]) else None
  {
    if conditions == [] || conditions[0].kind == Some(want) {
      i := 0;
    } else {
      var k := FirstCondition(conditions[1..], want);
      i := k + 1;
      forall j | 0 <= j < i
        ensures conditions[j].kind != Some(want)
      {
        if j > 0 { assert conditions[1..][j - 1] == conditions[j]; }
      }
    }
  }

  lemma FinishedMeaning(job: Job, want: Verdict, t: Time)
    ensures FinishedAt(job, want) == Some(t) <==> FinishedWith(job, want, t)
  {
    var i := FirstCondition(job.conditions, want);
    if FinishedAt(job, want) == Some(t) { assert FinishedBy(job, want, i, t); }
    if FinishedWith(job, want, t) {
      var j: nat :| FinishedBy(job, want, j, t);
      assert i == j;
    }
  }

  /** One committed reconcile observed a run of this verdict that finished at `t`. */
  ghost predicate Observes(a: Attempt, uid: Uid, want: Verdict, t: Time) {
    && a.accepted && a.finding.Seen? && a.finding.cron.Some?
    && var cron := a.finding.cron.value;
       || (want.Complete? && cron.lastSuccessful == Some(t))
       || (a.finding.jobs.Some?
           && exists job :: job in a.finding.jobs.value && (Belongs(job, uid) || Belongs(job, cron.uid)) && FinishedWith(job, want, t))
  }

  lemma SeenMeaning(a: Attempt, uid: Uid, want: Verdict, t: Time)
    ensures t in SeenBy(a, uid, want) <==> Observes(a, uid, want, t)
  {
    forall job: Job
      ensures FinishedAt(job, want) == Some(t) <==> FinishedWith(job, want, t)
      ensures forall id :: OwnedBy(job, id) <==> Belongs(job, id)
    {
      FinishedMeaning(job, want, t);
    }
  }

  /** The history a verdict is about: all that any committed reconcile has observed, and nothing else. */
  lemma {:induction false} EverSeenMeaning(attempts: seq<Attempt>, uid: Uid, want: Verdict, t: Time)
    ensures t in EverSeen(attempts, uid, want) <==> exists i :: 0 <= i < |attempts| && Observes(attempts[i], uid, want, t)
  {
    hide SeenBy, Observes;
    if attempts != [] {
      var front, last := attempts[..|attempts| - 1], attempts[|attempts| - 1];
      EverSeenMeaning(front, uid, want, t);
      SeenMeaning(last, uid, want, t);
      assert forall i :: 0 <= i < |front| ==> front[i] == attempts[i];
      if i :| 0 <= i < |attempts| && Observes(attempts[i], uid, want, t) && i < |front| {
        assert Observes(front[i], uid, want, t);
      }
    }
  }

  // ----- What the cluster shows when no runs are seen ----------------------------------------------

  predicate HistoryFailed(uid: Uid, attempts: seq<Attempt>) {
    LatestRunFailed(Run(NewStatus, uid, attempts).lastFailed, Run(NewStatus, uid, attempts).lastSucceeded)
  }

  /**
   A committed reconcile that sees no runs leaves the history's verdict as it was. The
   cluster then shows: for missing infrastructure that it is blocked, its members keeping
   their status; for an unreadable source a failure; for a suspended child what the history
   says; without a child, or without members, nothing but that.
   */
  lemma UnseenShows(uid: Uid, attempts: seq<Attempt>, last: Attempt, totalMembers: nat, prev: Option<MemberStatus>)
    requires last.accepted && !last.finding.Seen? && totalMembers > 0
    ensures
      var all := attempts + [last];
      var before, st := Run(NewStatus, uid, attempts), Run(NewStatus, uid, all);
      && (HistoryFailed(uid, all) <==> HistoryFailed(uid, attempts)) && st.rolledOut == before.rolledOut && st.active == before.active
      && (last.finding.InfraNotReady? ==>
            && st.cond.stalled == Some(Infra) && st.cond.ready == Some(false) && st.resolved == last.finding.revision
            && PhaseOf(Some(st), totalMembers) == Blocked
            && CoarseMemberStatus(Some(st), prev) == (if prev.Some? then prev.value else Pending))
      && (last.finding.SourceError? ==>
            && st.cond.stalled == Some(Git) && st.cond.ready == Some(false) && st.cond.gitSynced == Some(false)
            && PhaseOf(Some(st), totalMembers) == ClusterDegraded && CoarseMemberStatus(Some(st), prev) == MemberFailed)
      && (last.finding.IsSuspended? ==>
            && st.phase == Suspended && st.cond == before.cond.(reconciling := true)
            && (st.cond.stalled != Some(Infra) ==>
                  && PhaseOf(Some(st), totalMembers)
                  == (if HistoryFailed(uid, attempts) then ClusterDegraded
                      else if st.lastSucceeded.Some? then ClusterReady else Converging)
                  && CoarseMemberStatus(Some(st), prev)
                     == (if HistoryFailed(uid, attempts) then MemberFailed
                         else if st.active != [] then Applying
                         else if st.lastSucceeded.Some? then Applied else Pending)))
  {
    var all := attempts + [last];
    assert all[..|attempts|] == attempts;
  }

  /** A reconcile that finds no CronJob yet makes progress; an earlier stall still shows. */
  lemma NoCronJobShows(uid: Uid, attempts: seq<Attempt>, last: Attempt)
    requires last.accepted && last.finding.Seen? && last.finding.cron.None?
    ensures
      var before, st := Run(NewStatus, uid, attempts), Run(NewStatus, uid, attempts + [last]);
      && st.phase == Progressing && st.cond.progressing == Some(true) && st.cond.ready == Some(false)
      && st.cond.stalled == before.cond.stalled && st.lastFailed == before.lastFailed && st.lastSucceeded == before.lastSucceeded
  {
    assert (attempts + [last])[..|attempts|] == attempts;
  }

  lemma NothingToShow(cron: Option<Status>, totalMembers: nat, prev: Option<MemberStatus>)
    ensures totalMembers == 0 ==> PhaseOf(cron, totalMembers) == Blocked
    ensures totalMembers > 0 && cron.None? ==> PhaseOf(cron, totalMembers) == Converging && CoarseMemberStatus(cron, prev) == Pending
  {
  }

  /** A reconcile that sees the runs reports them: who is active, what is rolled out, and whether the history is healthy. */
  lemma SeenReports(uid: Uid, attempts: seq<Attempt>, last: Attempt)
    requires last.accepted && last.finding.Seen? && last.finding.cron.Some?
    ensures
      var all := attempts + [last];
      var before, st, failed := Run(NewStatus, uid, attempts), Run(NewStatus, uid, all), HistoryFailed(uid, all);
      && st.active == last.finding.cron.value.active
      && st.rolledOut == last.finding.revision && st.resolved == last.finding.revision
      && st.phase == (if failed then Degraded else Ready)
      && st.cond == Conditions(Some(!failed), None, Some(true), if failed then before.cond.progressing else Some(false), true)
  {
    hide Failure, Success;
    assert (attempts + [last])[..|attempts|] == attempts;
  }
}
