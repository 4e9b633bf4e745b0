/**
 Several configurations may target one Machine. The earliest of them owns it, and
 only the owner may converge it.
 */
module Ownership {
  import opened Names
  import opened Lifecycle
  import opened LifecycleInvariant
  import opened LifecycleTheorems
  import opened LifecycleTermination
  import opened LifecycleOutcomes

  /** What ownership depends on. */
  datatype Id = Id(name: Name, created: int, machine: Name)

  predicate Earlier(a: Id, b: Id) {
    if a.created == b.created then Less(a.name, b.name) else a.created < b.created
  }

  predicate Rival(c: Id, config: Id) {
    c.machine == config.machine && c.name != config.name
  }

  /** Some other configuration for the same Machine wins over this one. */
  predicate Outranked(config: Id, items: seq<Id>) {
    exists c :: c in items && Rival(c, config) && Earlier(c, config)
  }

  predicate UniqueNames(items: seq<Id>) {
    forall a, b :: a in items && b in items && a.name == b.name ==> a == b
  }

  /** The least configuration of the list for a Machine. */
  predicate Leads(w: Id, items: seq<Id>, machine: Name) {
    && w in items && w.machine == machine
    && forall c :: c in items && c.machine == machine ==> c == w || Earlier(w, c)
  }

  lemma EarlierTransitive(a: Id, b: Id, c: Id)
    requires Earlier(a, b) && Earlier(b, c)
    ensures Earlier(a, c)
  {
    if a.created == b.created && b.created == c.created { LessTransitive(a.name, b.name, c.name); }
  }

  lemma EarlierTotal(a: Id, b: Id)
    ensures a.name == b.name || Earlier(a, b) || Earlier(b, a)
    ensures !(Earlier(a, b) && Earlier(b, a))
  {
    LessTotal(a.name, b.name);
    if Less(a.name, b.name) { LessAsymmetric(a.name, b.name); }
  }

  /** Nobody seen so far wins over `w`, and `w` is the asker or a rival of the asker. */
  predicate Winning(w: Id, config: Id, seen: seq<Id>) {
    && (w == config || (w in seen && Rival(w, config) && Earlier(w, config)))
    && forall c :: c in seen && Rival(c, config) ==> !Earlier(c, w)
  }

  lemma WinnerSteps(w: Id, config: Id, seen: seq<Id>, c: Id)
    requires Winning(w, config, seen)
    ensures Winning(if Rival(c, config) && Earlier(c, w) then c else w, config, seen + [c])
  {
    var next := if Rival(c, config) && Earlier(c, w) then c else w;
    if next == c && c != w && w != config { EarlierTransitive(c, w, config); }
    forall d | d in seen + [c] && Rival(d, config)
      ensures !Earlier(d, next)
    {
      EarlierTotal(next, next);
      if d in seen && Earlier(d, next) && next != w { EarlierTransitive(d, next, w); }
    }
  }

  /**
   The configuration that was created first for the Machine; of those created at the same
   time, the one whose name comes first in the dictionary.
   */
  ghost predicate Oldest(w: Id, items: seq<Id>, machine: Name) {
    && w in items && w.machine == machine
    && forall c :: c in items && c.machine == machine ==>
         w.created <= c.created && (w.created == c.created && w.name != c.name ==> Precedes(w.name, c.name))
  }

  /** The leader is the oldest. */
  lemma LeadsIffOldest(w: Id, items: seq<Id>, machine: Name)
    requires UniqueNames(items)
    ensures Leads(w, items, machine) <==> Oldest(w, items, machine)
  {
    forall c | c in items
      ensures Less(w.name, c.name) <==> Precedes(w.name, c.name)
    {
      LessIsDictionary(w.name, c.name);
    }
    if Oldest(w, items, machine) {
      forall c | c in items && c.machine == machine
        ensures c == w || Earlier(w, c)
      {
        assert w.created <= c.created;
      }
    }
  }

  /** The asker itself is the first winner; entries for other Machines or with its own name are skipped. */
  method MachineOwner(config: Id, items: seq<Id>) returns (owner: Name)
    ensures owner != config.name <==> Outranked(config, items)
    ensures config in items && UniqueNames(items) ==>
              exists w :: Oldest(w, items, config.machine) && owner == w.name
  {
    var winner := config;
    var i := 0;
    while i < |items|
      invariant 0 <= i <= |items|
      invariant Winning(winner, config, items[..i])
    {
      var c := items[i];
      assert items[..i + 1] == items[..i] + [c];
      WinnerSteps(winner, config, items[..i], c);
      if c.machine == config.machine && c.name != config.name {
        if Earlier(c, winner) {
          winner := c;
        }
      }
      i := i + 1;
    }
    assert items[..i] == items;
    owner := winner.name;
    if config in items && UniqueNames(items) {
      WinnerLeads(winner, config, items);
      LeadsIffOldest(winner, items, config.machine);
    }
  }

  lemma WinnerLeads(w: Id, config: Id, items: seq<Id>)
    requires Winning(w, config, items) && config in items && UniqueNames(items)
    ensures Leads(w, items, config.machine)
  {
    forall c | c in items && c.machine == config.machine
      ensures c == w || Earlier(w, c)
    {
      EarlierTotal(c, w);
    }
  }

  /** One winner, whatever the order of the list and whoever asks. */
  lemma LeaderIsUnique(w: Id, v: Id, listed: seq<Id>, relisted: seq<Id>, machine: Name)
    requires forall c :: c in listed <==> c in relisted
    requires Leads(w, listed, machine) && Leads(v, relisted, machine)
    ensures w == v
  {
    if w != v { EarlierTotal(w, v); }
  }

  /** A configuration of the list is its Machine's leader exactly if nobody outranks it. */
  lemma LeaderIffNotOutranked(c: Id, items: seq<Id>)
    requires c in items && UniqueNames(items)
    ensures Leads(c, items, c.machine) <==> !Outranked(c, items)
  {
    if Leads(c, items, c.machine) {
      forall d | d in items && Rival(d, c)
        ensures !Earlier(d, c)
      {
        EarlierTotal(d, c);
      }
    } else {
      var d :| d in items && d.machine == c.machine && d != c && !Earlier(c, d);
      EarlierTotal(c, d);
    }
  }

  // ----- What the gate does to the day-two children -------------------------------

  predicate Running(cron: Cron) {
    cron.present && !cron.suspended && !cron.deleting
  }

  /** A reconcile without API errors leaves the day-two child of a loser suspended or absent. */
  lemma LoserIsSuspended(s: Sys)
    requires s.w.at.Idle? && s.o.c.stored && !s.o.c.deleting && s.o.ownedByOther
    ensures !Running(Pass(s).o.cron)
  {
    LivePass(s);
  }

  /** A removal pass without API errors deletes it. */
  lemma RemovedIsStopped(s: Sys)
    requires s.w.at.Idle? && s.o.c.stored && s.o.c.deleting && s.o.c.finalizer
    ensures !Running(Pass(s).o.cron)
  {
    RemovalPass(s);
  }

  // ----- All the configurations of one Machine --------------------------------------

  /** The systems of the configurations `items`, by position. */
  type Fleet = seq<Sys>

  /** One error-free reconcile of the i-th configuration, whatever the Machine looks like to it. */
  datatype Visit = Visit(i: nat, machine: Machine)

  function Reconcile(items: seq<Id>, fleet: Fleet, v: Visit): Fleet
    requires |items| == |fleet|
  {
    if v.i >= |items| then fleet
    else
      var s := fleet[v.i];
      fleet[v.i := Pass(s.(o := s.o.(ownedByOther := Outranked(items[v.i], items), m := v.machine)))]
  }

  function ReconcileAll(items: seq<Id>, fleet: Fleet, visits: seq<Visit>): (after: Fleet)
    requires |items| == |fleet|
    ensures |after| == |items|
    decreases |visits|
  {
    if visits == [] then fleet else ReconcileAll(items, Reconcile(items, fleet, visits[0]), visits[1..])
  }

  /** Only the leader's day-two child may run. */
  predicate Settled(items: seq<Id>, i: nat, s: Sys)
    requires i < |items|
  {
    Running(s.o.cron) ==> !Outranked(items[i], items)
  }

  /** Between passes, stored, and not yet finalized unless its child is stopped. */
  predicate Sound(items: seq<Id>, i: nat, s: Sys)
    requires i < |items|
  {
    s.w.at.Idle? && s.o.c.stored && (s.o.c.deleting && !s.o.c.finalizer ==> Settled(items, i, s))
  }

  lemma VisitSettles(items: seq<Id>, i: nat, s: Sys)
    requires i < |items| && Sound(items, i, s) && s.o.ownedByOther == Outranked(items[i], items)
    ensures Sound(items, i, Pass(s)) && Settled(items, i, Pass(s))
  {
    hide Outranked;
    if !s.o.c.deleting {
      LivePass(s);
      if s.o.ownedByOther { LoserIsSuspended(s); }
    } else if s.o.c.finalizer {
      RemovalPass(s);
      RemovedIsStopped(s);
    } else {
      var t := WorkerStep(s, Ok);
      assert t == StepIdle(s, Ok) == s;
      assert Drain(t) == t;
    }
  }

  lemma {:induction false} VisitsSettle(items: seq<Id>, fleet: Fleet, visits: seq<Visit>, settled: set<nat>)
    requires |items| == |fleet|
    requires forall i :: 0 <= i < |items| ==> Sound(items, i, fleet[i])
    requires forall i :: i in settled && i < |items| ==> Settled(items, i, fleet[i])
    ensures
      var after := ReconcileAll(items, fleet, visits);
      && (forall i :: i in settled && i < |items| ==> Settled(items, i, after[i]))
      && (forall v :: v in visits && v.i < |items| ==> Settled(items, v.i, after[v.i]))
    decreases |visits|
  {
    if visits != [] {
      var v := visits[0];
      var next := Reconcile(items, fleet, v);
      if v.i < |items| {
        var s := fleet[v.i];
        var seen := s.(o := s.o.(ownedByOther := Outranked(items[v.i], items), m := v.machine));
        VisitSettles(items, v.i, seen);
        assert next == fleet[v.i := Pass(seen)];
      }
      VisitsSettle(items, next, visits[1..], settled + {v.i});
      assert visits == [v] + visits[1..];
    }
  }

  predicate Visited(visits: seq<Visit>, k: nat) {
    exists v :: v in visits && v.i == k
  }

  /**
   However the reconciles of the configurations of one Machine are ordered and repeated,
   once each of them has been reconciled without API errors at most one day-two child
   runs, and it is that of the oldest configuration.
   */
  lemma OneRunningChild(items: seq<Id>, fleet: Fleet, visits: seq<Visit>, machine: Name, i: nat, j: nat)
    requires |items| == |fleet| && (forall k :: 0 <= k < |items| ==> items[k].machine == machine)
    requires forall a, b :: 0 <= a < b < |items| ==> items[a].name != items[b].name
    requires forall k :: 0 <= k < |items| ==> Sound(items, k, fleet[k])
    requires forall k :: 0 <= k < |items| ==> Visited(visits, k)
    requires i < |items| && j < |items|
    ensures
      var after := ReconcileAll(items, fleet, visits);
      && (Running(after[i].o.cron) ==> Oldest(items[i], items, machine))
      && (Running(after[i].o.cron) && Running(after[j].o.cron) ==> i == j)
  {
    VisitsSettle(items, fleet, visits, {});
    var after := ReconcileAll(items, fleet, visits);
    forall k | 0 <= k < |items|
      ensures Settled(items, k, after[k])
    {
      assert Visited(visits, k);
      var v :| v in visits && v.i == k;
    }
    LeaderIffNotOutranked(items[i], items);
    LeaderIffNotOutranked(items[j], items);
    LeadsIffOldest(items[i], items, machine);
    if Running(after[i].o.cron) && Running(after[j].o.cron) {
      LeaderIsUnique(items[i], items[j], items, items, machine);
    }
  }

  // ----- The owner's child does run ---------------------------------------------------------

  predicate Reachable(m: Machine) {
    m.stored && m.discoverable && m.hasKey
  }

  /** Between passes, wanted, with nothing left to install and no child on its way out. */
  predicate Convergeable(s: Sys) {
    && s.w.at.Idle? && s.o.c.stored && !s.o.c.deleting && s.o.c.spec.filesSupported && !InstallPending(s.o.c)
    && (s.o.cron.present ==> !s.o.cron.deleting)
  }

  /**
   A reconcile without API errors makes the owner's child run, whether there was none or
   it had been suspended.
   */
  lemma OwnerRuns(s: Sys)
    requires Convergeable(s) && Reachable(s.o.m) && !s.o.ownedByOther
    ensures Running(Pass(s).o.cron)
  {
    LivePass(s);
  }

  lemma ConvergeableStays(s: Sys)
    requires Convergeable(s)
    ensures Convergeable(Pass(s))
  {
    hide WorkerStep, Drain, ReportsHealth;
    LivePass(s);
    StatusKeepsCompletion(s.o, Pass(s).o);
  }

  lemma StatusKeepsCompletion(o: Objects, t: Objects)
    requires LiveOutcome(o, t) && !InstallPending(o.c)
    ensures !InstallPending(t.c)
  {
  }

  /** From its last reconcile on, if that finds the Machine reachable, the owner's child runs. */
  lemma {:induction false} LastVisitRuns(items: seq<Id>, fleet: Fleet, visits: seq<Visit>, w: nat, p: nat)
    requires |items| == |fleet| && w < |items| && p < |visits|
    requires Convergeable(fleet[w]) && !Outranked(items[w], items)
    requires visits[p].i == w && Reachable(visits[p].machine) && forall q :: p < q < |visits| ==> visits[q].i != w
    ensures Running(ReconcileAll(items, fleet, visits)[w].o.cron)
    decreases |visits|
  {
    hide Pass, Outranked;
    var v, next := visits[0], Reconcile(items, fleet, visits[0]);
    if v.i == w {
      var s := fleet[w];
      var seen := s.(o := s.o.(ownedByOther := Outranked(items[w], items), m := v.machine));
      ConvergeableStays(seen);
      if p == 0 { OwnerRuns(seen); }
    }
    if p == 0 {
      OthersLeaveAlone(items, next, visits[1..], w);
    } else {
      LastVisitRuns(items, next, visits[1..], w, p - 1);
    }
  }

  lemma {:induction false} OthersLeaveAlone(items: seq<Id>, fleet: Fleet, visits: seq<Visit>, w: nat)
    requires |items| == |fleet| && w < |items| && forall q :: 0 <= q < |visits| ==> visits[q].i != w
    ensures ReconcileAll(items, fleet, visits)[w] == fleet[w]
    decreases |visits|
  {
    hide Pass, Outranked;
    if visits != [] { OthersLeaveAlone(items, Reconcile(items, fleet, visits[0]), visits[1..], w); }
  }

  /**
   If the last reconcile of the oldest configuration finds the Machine reachable, exactly
   one child runs in the end: its own.
   */
  lemma ExactlyOneRuns(items: seq<Id>, fleet: Fleet, visits: seq<Visit>, machine: Name, w: nat, p: nat)
    requires |items| == |fleet| && (forall k :: 0 <= k < |items| ==> items[k].machine == machine)
    requires forall a, b :: 0 <= a < b < |items| ==> items[a].name != items[b].name
    requires forall k :: 0 <= k < |items| ==> Sound(items, k, fleet[k])
    requires forall k :: 0 <= k < |items| ==> Visited(visits, k)
    requires w < |items| && Oldest(items[w], items, machine) && Convergeable(fleet[w])
    requires p < |visits| && visits[p].i == w && Reachable(visits[p].machine)
    requires forall q :: p < q < |visits| ==> visits[q].i != w
    ensures forall i :: 0 <= i < |items| ==> (Running(ReconcileAll(items, fleet, visits)[i].o.cron) <==> i == w)
  {
    LeadsIffOldest(items[w], items, machine);
    LeaderIffNotOutranked(items[w], items);
    LastVisitRuns(items, fleet, visits, w, p);
    forall i | 0 <= i < |items|
      ensures Running(ReconcileAll(items, fleet, visits)[i].o.cron) <==> i == w
    {
      OneRunningChild(items, fleet, visits, machine, i, w);
    }
  }

  /** There is always an oldest one. */
  lemma {:induction false} SomeoneIsOldest(items: seq<Id>, machine: Name) returns (w: Id)
    requires items != [] && UniqueNames(items) && forall c :: c in items ==> c.machine == machine
    ensures Oldest(w, items, machine)
    decreases |items|
  {
    var front, last := items[..|items| - 1], items[|items| - 1];
    assert items == front + [last];
    w := last;
    if front != [] {
      var v := SomeoneIsOldest(front, machine);
      LeadsIffOldest(v, front, machine);
      EarlierTotal(v, last);
      w := if v == last || Earlier(v, last) then v else last;
      forall c | c in items
        ensures c == w || Earlier(w, c)
      {
        assert v.name == last.name ==> v == last;
        if w == last && v != last && c in front && c != v { EarlierTransitive(last, v, c); }
      }
    }
    assert Leads(w, items, machine);
    LeadsIffOldest(w, items, machine);
  }
}
