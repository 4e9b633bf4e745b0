/**
 Why a configuration is given up: the evidence the finalizing pass itself has seen, and
 what its last write does to the spec.
 */
module LifecycleEvidence {
  import opened Lifecycle
  import opened LifecycleCalls
  import opened LifecycleInvariant
  import opened LifecycleTheorems
  import opened LifecyclePasses
  import opened Options

  // ----- The gate ---------------------------------------------------------------------

  /**
   The finalizer disappears only by the finalizing write of a deleted configuration's pass,
   and in that very pass the worker has seen why: it read a configuration without a flake,
   a missing Machine, a refusing answer, a succeeded child, or the retries used up.
   */
  lemma FinalizerGate(s0: Sys, before: seq<Label>, l: Label)
    requires Initial(s0)
    requires Exec(s0, before).o.c.finalizer && !Next(Exec(s0, before), l).o.c.finalizer
    ensures
      var s, p := Exec(s0, before), NotesOf(s0, before);
      && s.o.c.deleting && s.w.at.Finalize?
      && match s.w.why
         case NoFlake => !p.read.onRemove && !s.o.c.spec.onRemove
         case NoMachine => p.missing
         case CannotCreate => p.refused
         case Succeeded => p.success
         case GaveUp => p.terminal && s.o.c.status.removeRetries >= MaxOnRemoveRetries
  {
    NotesAgree(s0, before);
    FinalizerStep(Exec(s0, before), l, Next(Exec(s0, before), l));
  }

  // ----- Where the history flags rise ------------------------------------------------------

  /** Skipping is decided exactly at these answers, whether or not the cause is permanent. */
  lemma SkippedExactlyHere(s: Sys, l: Label, t: Sys)
    requires t == Next(s, l)
    ensures t.h.rl.refused <==> s.h.rl.refused || Refuses(s, l)
  {
    match l
    case Act(r) =>
      if InRemoval(s.w.at) { RemovalRefuses(s, r, t); } else { LiveRefusesNothing(s, r, t); }
    case Crash =>
    case Env(a) => EnvRefusesNothing(s, a, t);
  }

  lemma RemovalRefuses(s: Sys, r: Reply, t: Sys)
    requires t == WorkerStep(s, r) && InRemoval(s.w.at)
    ensures t.h.rl.refused <==> s.h.rl.refused || Refuses(s, Act(r))
  {
    if s.w.at.RemFind? {
      FindRefuses(s, r, t);
    } else if s.w.at.RemCreateGet? || s.w.at.RemCreate? {
      CreateRefuses(s, r, t);
    } else {
      OthersRefuseNothing(s, r, t);
    }
  }

  lemma FindRefuses(s: Sys, r: Reply, t: Sys)
    requires s.w.at.RemFind? && t == StepRemFind(s, r)
    ensures t.h.rl.refused <==> s.h.rl.refused || Refuses(s, Act(r))
  {
  }

  lemma CreateRefuses(s: Sys, r: Reply, t: Sys)
    requires (s.w.at.RemCreateGet? && t == StepRemCreateGet(s, r)) || (s.w.at.RemCreate? && t == StepRemCreate(s, r))
    ensures t.h.rl.refused <==> s.h.rl.refused || Refuses(s, Act(r))
  {
  }

  lemma OthersRefuseNothing(s: Sys, r: Reply, t: Sys)
    requires t == WorkerStep(s, r) && InRemoval(s.w.at)
    requires !s.w.at.RemFind? && !s.w.at.RemCreateGet? && !s.w.at.RemCreate?
    ensures t.h.rl.refused == s.h.rl.refused
  {
    hide WorkerStep;
    if s.w.at.RemClear? || s.w.at.RemDeleteFinal? || s.w.at.Finalize? {
      CloseCalls(s, r);
    } else {
      RemovalCalls(s, r);
      BumpCalls(s, r);
      FindCalls(s, r);
    }
  }

  lemma LiveRefusesNothing(s: Sys, r: Reply, t: Sys)
    requires t == WorkerStep(s, r) && !InRemoval(s.w.at)
    ensures t.h.rl.refused == s.h.rl.refused
  {
  }

  lemma EnvRefusesNothing(s: Sys, a: Action, t: Sys)
    requires t == EnvStep(s, a)
    ensures t.h.rl.refused == s.h.rl.refused
  {
  }

  /** The other two flags of the history rise exactly at the answers they stand for. */
  lemma SeenExactlyHere(s: Sys, l: Label, t: Sys)
    requires t == Next(s, l)
    ensures t.h.rl.machineMissing <==> s.h.rl.machineMissing || ReadsNoMachine(s, l)
    ensures t.h.rl.successSeen <==> s.h.rl.successSeen || SeesSuccess(s, l)
  {
    match l
    case Act(r) =>
      if InRemoval(s.w.at) { RemovalFlags(s, r, t); } else { LiveFlags(s, r, t); }
    case Crash =>
    case Env(a) => EnvFlags(s, a, t);
  }

  lemma RemovalFlags(s: Sys, r: Reply, t: Sys)
    requires InRemoval(s.w.at) && t == WorkerStep(s, r)
    ensures t.h.rl.machineMissing <==> s.h.rl.machineMissing || ReadsNoMachine(s, Act(r))
    ensures t.h.rl.successSeen <==> s.h.rl.successSeen || SeesSuccess(s, Act(r))
  {
    hide WorkerStep;
    if s.w.at.RemGetMachine? {
      RemovalCalls(s, r);
    } else if s.w.at.RemFind? {
      FindCalls(s, r);
    } else {
      OthersRaiseNothing(s, r, t);
    }
  }

  lemma OthersRaiseNothing(s: Sys, r: Reply, t: Sys)
    requires InRemoval(s.w.at) && !s.w.at.RemGetMachine? && !s.w.at.RemFind? && t == WorkerStep(s, r)
    ensures t.h.rl.machineMissing == s.h.rl.machineMissing && t.h.rl.successSeen == s.h.rl.successSeen
  {
    hide WorkerStep;
    if InClosing(s.w.at) {
      CloseCalls(s, r);
    } else if s.w.at.BumpGet? || s.w.at.BumpWrite? || s.w.at.RemDeleteFailed? {
      BumpCalls(s, r);
    } else {
      RemovalCalls(s, r);
      FindCalls(s, r);
    }
  }

  lemma LiveFlags(s: Sys, r: Reply, t: Sys)
    requires !InRemoval(s.w.at) && t == WorkerStep(s, r)
    ensures t.h.rl.machineMissing == s.h.rl.machineMissing && t.h.rl.successSeen == s.h.rl.successSeen
  {
  }

  lemma EnvFlags(s: Sys, a: Action, t: Sys)
    requires t == EnvStep(s, a)
    ensures t.h.rl.machineMissing == s.h.rl.machineMissing && t.h.rl.successSeen == s.h.rl.successSeen
  {
  }

  // ----- The committed spec --------------------------------------------------------------------

  /** The write that overwrites a newer spec with the one the pass read first. */
  predicate RevertsSpec(s: Sys, r: Reply, p: Notes) {
    && s.w.at.Finalize? && Accepts(s.o.c, s.w.wc, r)
    && p.counted.Some? && p.counted.value != p.read
  }

  /**
   No call of the controller changes the committed spec, with one exception: the accepted
   finalizing write of a pass that has committed a count, exactly if the spec committed at
   that moment was no longer the one the pass had read first. It then restores the old spec.
   */
  lemma SpecChangesExactlyHere(s0: Sys, run: seq<Label>, r: Reply)
    requires Initial(s0)
    ensures
      var s, p := Exec(s0, run), NotesOf(s0, run);
      var t := Next(s, Act(r));
      && (t.o.c.spec != s.o.c.spec <==> RevertsSpec(s, r, p))
      && (RevertsSpec(s, r, p) ==> t.o.c.spec == p.read && s.o.c.spec == p.counted.value)
  {
    NotesAgree(s0, run);
    SpecStep(Exec(s0, run), r, Next(Exec(s0, run), Act(r)), NotesOf(s0, run));
  }

  lemma SpecStep(s: Sys, r: Reply, t: Sys, p: Notes)
    requires SpecNoted(s, p) && t == WorkerStep(s, r)
    ensures t.o.c.spec != s.o.c.spec <==> RevertsSpec(s, r, p)
    ensures RevertsSpec(s, r, p) ==> t.o.c.spec == p.read && s.o.c.spec == p.counted.value
  {
    hide WorkerStep;
    if s.w.at.Finalize? {
      CloseCalls(s, r);
    } else if s.w.at.AddFinalizer? || s.w.at.FinalWrite? {
      EntryCalls(s, r);
    } else if s.w.at.MarkWrite? {
      MarkCalls(s, r);
    } else if s.w.at.BumpWrite? {
      BumpCalls(s, r);
    } else if s.w.at.RemStatus? {
      FindCalls(s, r);
    } else {
      OthersKeepConfig(s, r, t);
    }
  }
}
