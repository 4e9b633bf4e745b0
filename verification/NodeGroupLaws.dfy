/**
 What the group loop of a NixCluster promises: the groups partition the Machines they
 select, node files are in bijection with members, a repeated reconcile changes
 nothing, and members stick through any sequence of Machine changes.
 */
module NodeGroupLaws {
  import opened Names
  import opened NameSets
  import opened Options
  import opened Selection
  import opened NodeGroups
  import Checkouts
  import FileInjection
  import InjectedFiles
  import NixString
  import Paths
  import Sources

  // ----- What a completed loop has done ------------------------------------------------

  function ClaimedBy(statuses: seq<GroupStatus>): set<Name> {
    if statuses == [] then {}
    else ClaimedBy(statuses[..|statuses| - 1]) + Elems(statuses[|statuses| - 1].members)
  }

  /** A member and the values of its group. */
  datatype Slot = Slot(name: Name, values: string)

  function SlotsOf(members: seq<Name>, values: string): seq<Slot> {
    seq(|members|, k requires 0 <= k < |members| => Slot(members[k], values))
  }

  function Slots(groups: seq<Group>, statuses: seq<GroupStatus>): seq<Slot>
    requires |groups| == |statuses|
  {
    if groups == [] then []
    else
      var k := |groups| - 1;
      Slots(groups[..k], statuses[..k]) + SlotsOf(statuses[k].members, groups[k].values)
  }

  /** One file per slot, in order, each with its member's path, host and values. */
  predicate FilesFit(machines: seq<Machine>, files: seq<NodeFile>, slots: seq<Slot>) {
    && |files| == |slots|
    && forall k :: 0 <= k < |slots| ==> FileFits(machines, files[k], slots[k])
  }

  predicate FileFits(machines: seq<Machine>, file: NodeFile, slot: Slot) {
    && SafeSegment(slot.name)
    && file.path == NodesDir + "/" + slot.name + ".nix"
    && HostOf(machines, slot.name) == Some(file.host)
    && file.values == (if slot.values == "" then "{}" else slot.values)
  }

  predicate StatusFollows(machines: seq<Machine>, groups: seq<Group>, prev: map<Name, seq<Name>>,
                          statuses: seq<GroupStatus>, i: nat)
    requires i < |groups| == |statuses|
  {
    && groups[i].selector.Some?
    && statuses[i] == StatusOf(machines, groups[i], Of(prev, groups[i].name), ClaimedBy(statuses[..i]))
  }

  predicate GroupShort(machines: seq<Machine>, groups: seq<Group>, statuses: seq<GroupStatus>, i: nat)
    requires i < |groups| == |statuses|
  {
    groups[i].selector.Some? && Short(machines, groups[i], ClaimedBy(statuses[..i]))
  }

  predicate Follows(machines: seq<Machine>, groups: seq<Group>, prev: map<Name, seq<Name>>, p: Progress) {
    && |p.statuses| == |groups|
    && (forall i :: 0 <= i < |groups| ==> StatusFollows(machines, groups, prev, p.statuses, i))
    && (p.under <==> exists i :: 0 <= i < |groups| && GroupShort(machines, groups, p.statuses, i))
    && p.claimed == ClaimedBy(p.statuses)
    && p.total == |Slots(groups, p.statuses)|
    && FilesFit(machines, p.files, Slots(groups, p.statuses))
  }

  lemma {:induction false} RenderAllFits(machines: seq<Machine>, members: seq<Name>, values: string)
    requires RenderAll(machines, members, values).Some?
    ensures FilesFit(machines, RenderAll(machines, members, values).value, SlotsOf(members, values))
  {
    if members != [] {
      var front, last := members[..|members| - 1], members[|members| - 1];
      RenderAllFits(machines, front, values);
      NodeFilePath(last, HostOf(machines, last).value, values);
    }
  }

  lemma StepFields(machines: seq<Machine>, g: Group, prev: map<Name, seq<Name>>, p: Progress)
    requires Step(machines, g, prev, p).Done?
    ensures g.selector.Some?
    ensures
      var q, status := Step(machines, g, prev, p).progress, StatusOf(machines, g, Of(prev, g.name), p.claimed);
      var files := RenderAll(machines, status.members, g.values);
      && files.Some? && q.files == p.files + files.value && FilesFit(machines, files.value, SlotsOf(status.members, g.values))
      && q.statuses == p.statuses + [status] && q.claimed == p.claimed + Elems(status.members)
      && q.total == p.total + |status.members| && (q.under <==> p.under || Short(machines, g, p.claimed))
  {
    RenderAllFits(machines, StatusOf(machines, g, Of(prev, g.name), p.claimed).members, g.values);
  }

  /** One more status is added behind those there are. */
  lemma StatusAdded(machines: seq<Machine>, done: seq<Group>, g: Group, prev: map<Name, seq<Name>>, p: Progress, status: GroupStatus)
    requires Follows(machines, done, prev, p) && g.selector.Some? && status == StatusOf(machines, g, Of(prev, g.name), p.claimed)
    ensures
      var groups, statuses := done + [g], p.statuses + [status];
      && (forall i :: 0 <= i < |groups| ==> StatusFollows(machines, groups, prev, statuses, i))
      && ((exists i :: 0 <= i < |groups| && GroupShort(machines, groups, statuses, i))
          <==> p.under || Short(machines, g, p.claimed))
  {
    hide StatusOf, Short, FilesFit, Slots;
    var groups, statuses := done + [g], p.statuses + [status];
    assert groups[..|done|] == done && statuses[..|done|] == p.statuses;
    forall i | 0 <= i < |groups|
      ensures StatusFollows(machines, groups, prev, statuses, i)
      ensures GroupShort(machines, groups, statuses, i)
         <==> if i < |done| then GroupShort(machines, done, p.statuses, i) else Short(machines, g, p.claimed)
    {
      if i < |done| {
        assert StatusFollows(machines, done, prev, p.statuses, i);
        assert statuses[..i] == p.statuses[..i];
      }
    }
    if p.under {
      var i :| 0 <= i < |done| && GroupShort(machines, done, p.statuses, i);
      assert GroupShort(machines, groups, statuses, i);
    }
    if Short(machines, g, p.claimed) { assert GroupShort(machines, groups, statuses, |done|); }
  }

  lemma StepFollows(machines: seq<Machine>, done: seq<Group>, g: Group, prev: map<Name, seq<Name>>, p: Progress)
    requires Follows(machines, done, prev, p) && Step(machines, g, prev, p).Done?
    ensures Follows(machines, done + [g], prev, Step(machines, g, prev, p).progress)
  {
    hide Step, StatusOf, RenderAll, Short, StatusFollows, GroupShort, FileFits;
    var q := Step(machines, g, prev, p).progress;
    StepFields(machines, g, prev, p);
    var groups, status := done + [g], StatusOf(machines, g, Of(prev, g.name), p.claimed);
    StatusAdded(machines, done, g, prev, p, status);
    assert groups[..|done|] == done && q.statuses[..|done|] == p.statuses;
    assert Slots(groups, q.statuses) == Slots(done, p.statuses) + SlotsOf(status.members, g.values);
  }

  lemma {:induction false} PlanFollows(
    machines: seq<Machine>, done: seq<Group>, rest: seq<Group>, prev: map<Name, seq<Name>>, p: Progress)
    requires Follows(machines, done, prev, p) && Plan(machines, rest, prev, p).Done?
    ensures Follows(machines, done + rest, prev, Plan(machines, rest, prev, p).progress)
    decreases |rest|
  {
    hide Follows, Step;
    if rest == [] {
      assert done + rest == done;
    } else {
      StepFollows(machines, done, rest[0], prev, p);
      PlanFollows(machines, done + [rest[0]], rest[1..], prev, Step(machines, rest[0], prev, p).progress);
      assert done + rest == done + [rest[0]] + rest[1..];
    }
  }

  lemma DoneFollows(machines: seq<Machine>, groups: seq<Group>, prev: map<Name, seq<Name>>)
    requires Plan(machines, groups, prev, Start).Done?
    ensures Follows(machines, groups, prev, Plan(machines, groups, prev, Start).progress)
  {
    assert Follows(machines, [], prev, Start);
    PlanFollows(machines, [], groups, prev, Start);
    assert [] + groups == groups;
  }

  // ----- Partition -------------------------------------------------------------------------

  lemma {:induction false} ClaimedGrows(statuses: seq<GroupStatus>, i: nat, j: nat)
    requires i < j <= |statuses|
    ensures Elems(statuses[i].members) <= ClaimedBy(statuses[..j])
    decreases j
  {
    var front := statuses[..j];
    assert front[..j - 1] == statuses[..j - 1];
    if i < j - 1 { ClaimedGrows(statuses, i, j - 1); }
  }

  /** The Machines a selector matches that are not claimed yet. */
  function Unclaimed(machines: seq<Machine>, sel: Labels -> bool, claimed: set<Name>): set<Name> {
    set m | m in machines && Eligible(m, sel, claimed) :: m.name
  }

  lemma CandidateCount(machines: seq<Machine>, sel: Labels -> bool, claimed: set<Name>)
    requires UniqueMachines(machines)
    ensures |Candidates(machines, sel, claimed)| == |Unclaimed(machines, sel, claimed)|
  {
    var names := Candidates(machines, sel, claimed);
    CandidatesMeaning(machines, sel, claimed);
    SortedDistinct(names);
    DistinctCount(names);
    assert Elems(names) == Unclaimed(machines, sel, claimed);
  }

  /**
   Groups share no Machine; every member is a Machine its group's selector matches; and
   each group is as large as its count and the Machines left by earlier groups allow.
   */
  lemma GroupsPartition(machines: seq<Machine>, groups: seq<Group>, prev: map<Name, seq<Name>>, i: nat, j: nat)
    requires UniqueMachines(machines) && Plan(machines, groups, prev, Start).Done? && i < |groups| && j < |groups|
    ensures
      var statuses := Plan(machines, groups, prev, Start).progress.statuses;
      && |statuses| == |groups| && statuses[i].name == groups[i].name && groups[i].selector.Some?
      && Sorted(statuses[i].members) && statuses[i].selected == |statuses[i].members|
      && (i != j ==> Elems(statuses[i].members) !! Elems(statuses[j].members))
      && (forall x :: x in statuses[i].members ==>
            exists m :: m in machines && m.name == x && groups[i].selector.value(m.labels))
      && var left := |Unclaimed(machines, groups[i].selector.value, ClaimedBy(statuses[..i]))|;
         statuses[i].selected == (if groups[i].count.None? then left else Min(Wanted(groups[i].count.value), left))
  {
    DoneFollows(machines, groups, prev);
    var p := Plan(machines, groups, prev, Start).progress;
    var claimed := ClaimedBy(p.statuses[..i]);
    var g := groups[i];
    assert StatusFollows(machines, groups, prev, p.statuses, i);
    GroupMembersKnown(machines, g, Of(prev, g.name), claimed);
    CandidatesMeaning(machines, g.selector.value, claimed);
    MembersMeaning(Candidates(machines, g.selector.value, claimed), Elems(Of(prev, g.name)), g.count);
    CandidateCount(machines, g.selector.value, claimed);
    if i < j { LaterAvoids(machines, groups, prev, p, i, j); }
    if j < i { LaterAvoids(machines, groups, prev, p, j, i); }
  }

  lemma LaterAvoids(machines: seq<Machine>, groups: seq<Group>, prev: map<Name, seq<Name>>, p: Progress, i: nat, j: nat)
    requires UniqueMachines(machines) && Follows(machines, groups, prev, p) && i < j < |groups|
    ensures Elems(p.statuses[i].members) !! Elems(p.statuses[j].members)
  {
    assert StatusFollows(machines, groups, prev, p.statuses, j);
    GroupMembersKnown(machines, groups[j], Of(prev, groups[j].name), ClaimedBy(p.statuses[..j]));
    ClaimedGrows(p.statuses, i, j);
  }

  /** The members of all groups together. */
  function SumSelected(statuses: seq<GroupStatus>): nat {
    if statuses == [] then 0 else SumSelected(statuses[..|statuses| - 1]) + |statuses[|statuses| - 1].members|
  }

  lemma {:induction false} SlotsCount(groups: seq<Group>, statuses: seq<GroupStatus>)
    requires |groups| == |statuses|
    ensures |Slots(groups, statuses)| == SumSelected(statuses)
  {
    if groups != [] { SlotsCount(groups[..|groups| - 1], statuses[..|statuses| - 1]); }
  }

  /**
   What is reported: a group desires its count, or without one every Machine that is left
   for it; the cluster is short exactly if some group has fewer members than its count.
   */
  lemma StatusesReport(machines: seq<Machine>, groups: seq<Group>, prev: map<Name, seq<Name>>)
    requires UniqueMachines(machines) && Plan(machines, groups, prev, Start).Done?
    ensures
      var p := Plan(machines, groups, prev, Start).progress;
      && |p.statuses| == |groups| && p.total == SumSelected(p.statuses)
      && (forall i :: 0 <= i < |groups| ==>
            p.statuses[i].desired
            == if groups[i].count.Some? then groups[i].count.value else |p.statuses[i].members|)
      && (p.under <==> exists i :: 0 <= i < |groups| && groups[i].count.Some? && |p.statuses[i].members| < groups[i].count.value)
  {
    DoneFollows(machines, groups, prev);
    var p := Plan(machines, groups, prev, Start).progress;
    SlotsCount(groups, p.statuses);
    forall i | 0 <= i < |groups|
      ensures p.statuses[i].desired == if groups[i].count.Some? then groups[i].count.value else |p.statuses[i].members|
      ensures GroupShort(machines, groups, p.statuses, i)
         <==> groups[i].count.Some? && |p.statuses[i].members| < groups[i].count.value
    {
      hide Follows, Plan, Slots;
      GroupReports(machines, groups, prev, p, i);
    }
  }

  lemma GroupReports(machines: seq<Machine>, groups: seq<Group>, prev: map<Name, seq<Name>>, p: Progress, i: nat)
    requires UniqueMachines(machines) && Follows(machines, groups, prev, p) && i < |groups|
    ensures p.statuses[i].desired == if groups[i].count.Some? then groups[i].count.value else |p.statuses[i].members|
    ensures GroupShort(machines, groups, p.statuses, i)
       <==> groups[i].count.Some? && |p.statuses[i].members| < groups[i].count.value
  {
    var claimed, g := ClaimedBy(p.statuses[..i]), groups[i];
    assert StatusFollows(machines, groups, prev, p.statuses, i);
    CandidatesMeaning(machines, g.selector.value, claimed);
    MembersMeaning(Candidates(machines, g.selector.value, claimed), Elems(Of(prev, g.name)), g.count);
  }

  // ----- Node files --------------------------------------------------------------------------

  /** Where a slot comes from. */
  lemma {:induction false} SlotOrigin(groups: seq<Group>, statuses: seq<GroupStatus>, k: nat) returns (i: nat, a: nat)
    requires |groups| == |statuses| && k < |Slots(groups, statuses)|
    ensures i < |groups| && a < |statuses[i].members|
    ensures Slots(groups, statuses)[k] == Slot(statuses[i].members[a], groups[i].values)
    ensures k == |Slots(groups[..i], statuses[..i])| + a
    decreases |groups|
  {
    var n := |groups| - 1;
    var front := Slots(groups[..n], statuses[..n]);
    if k < |front| {
      i, a := SlotOrigin(groups[..n], statuses[..n], k);
      assert groups[..n][..i] == groups[..i] && statuses[..n][..i] == statuses[..i];
    } else {
      i, a := n, k - |front|;
    }
  }

  lemma SlotsDiffer(machines: seq<Machine>, groups: seq<Group>, prev: map<Name, seq<Name>>, p: Progress, k: nat, l: nat)
    requires UniqueMachines(machines) && Plan(machines, groups, prev, Start) == Done(p)
    requires |p.statuses| == |groups| && k < l < |Slots(groups, p.statuses)|
    ensures Slots(groups, p.statuses)[k].name != Slots(groups, p.statuses)[l].name
  {
    var i, a := SlotOrigin(groups, p.statuses, k);
    var j, b := SlotOrigin(groups, p.statuses, l);
    GroupsPartition(machines, groups, prev, i, j);
    var x, y := p.statuses[i].members[a], p.statuses[j].members[b];
    if i == j {
      SortedDistinct(p.statuses[i].members);
    } else {
      assert x in Elems(p.statuses[i].members) && y in Elems(p.statuses[j].members);
    }
  }

  /** The file is written for the Machine of this name and carries its host. */
  predicate Hosts(m: Machine, name: Name, file: NodeFile) {
    m.name == name && m.host == file.host
  }

  predicate IsHosted(machines: seq<Machine>, name: Name, file: NodeFile) {
    exists m :: m in machines && Hosts(m, name, file)
  }

  lemma {:induction false} HostIsTheMachines(machines: seq<Machine>, name: Name, file: NodeFile)
    requires HostOf(machines, name) == Some(file.host)
    ensures exists m :: m in machines && Hosts(m, name, file)
  {
    var front, last := machines[..|machines| - 1], machines[|machines| - 1];
    if last.name == name {
      assert last in machines && Hosts(last, name, file);
    } else {
      HostIsTheMachines(front, name, file);
      var m :| m in front && Hosts(m, name, file);
      assert m in machines;
    }
  }

  /** Every member has one node file of its own, and nothing else has one. */
  lemma NodeFilesMatchMembers(machines: seq<Machine>, groups: seq<Group>, prev: map<Name, seq<Name>>)
    requires UniqueMachines(machines) && Plan(machines, groups, prev, Start).Done?
    ensures
      var p := Plan(machines, groups, prev, Start).progress;
      && |p.statuses| == |groups| && p.total == |p.files| == |Slots(groups, p.statuses)|
      && FilesFit(machines, p.files, Slots(groups, p.statuses))
      && (forall k :: 0 <= k < |p.files| ==>
            IsHosted(machines, Slots(groups, p.statuses)[k].name, p.files[k]))
      && forall k, l :: 0 <= k < l < |p.files| ==>
           Slots(groups, p.statuses)[k].name != Slots(groups, p.statuses)[l].name
           && p.files[k].path != p.files[l].path
  {
    DoneFollows(machines, groups, prev);
    var p := Plan(machines, groups, prev, Start).progress;
    var slots := Slots(groups, p.statuses);
    assert FilesFit(machines, p.files, slots) && p.total == |slots|;
    hide Follows, Plan, Slots, FileFits;
    forall k | 0 <= k < |p.files|
      ensures IsHosted(machines, slots[k].name, p.files[k])
    {
      FileIsHosted(machines, p.files[k], slots[k]);
    }
    forall k, l | 0 <= k < l < |p.files|
      ensures slots[k].name != slots[l].name && p.files[k].path != p.files[l].path
    {
      SlotsDiffer(machines, groups, prev, p, k, l);
      FilesDiffer(machines, p.files[k], p.files[l], slots[k], slots[l]);
    }
  }

  lemma FileIsHosted(machines: seq<Machine>, file: NodeFile, slot: Slot)
    requires FileFits(machines, file, slot)
    ensures IsHosted(machines, slot.name, file)
  {
    HostIsTheMachines(machines, slot.name, file);
  }

  lemma FilesDiffer(machines: seq<Machine>, f: NodeFile, g: NodeFile, a: Slot, b: Slot)
    requires FileFits(machines, f, a) && FileFits(machines, g, b) && a.name != b.name
    ensures f.path != g.path
  {
    PathDeterminesName(a.name, b.name);
  }

  /** The check of all node files after the loop never fails. */
  lemma NodeFilesAreValid(machines: seq<Machine>, groups: seq<Group>, prev: map<Name, seq<Name>>, k: nat)
    requires UniqueMachines(machines) && Plan(machines, groups, prev, Start).Done?
    requires k < |Plan(machines, groups, prev, Start).progress.files|
    ensures Paths.ValidateFilePath(Plan(machines, groups, prev, Start).progress.files[k].path)
  {
    DoneFollows(machines, groups, prev);
    var p := Plan(machines, groups, prev, Start).progress;
    var slot := Slots(groups, p.statuses)[k];
    assert FileFits(machines, p.files[k], slot);
    NodeFilePath(slot.name, p.files[k].host, slot.values);
  }

  /**
   A node file is one the injection delivers: no command takes its path for options, git
   does not refuse it, and its content comes from a key without a slash.
   */
  lemma NodeFilesFit(machines: seq<Machine>, groups: seq<Group>, prev: map<Name, seq<Name>>, k: nat, content: string)
    requires UniqueMachines(machines) && Plan(machines, groups, prev, Start).Done?
    requires k < |Plan(machines, groups, prev, Start).progress.files|
    ensures
      var path := Plan(machines, groups, prev, Start).progress.files[k].path;
      var file := FileInjection.NixFile(path, Some(content), None, None);
      InjectedFiles.Sound(file) && InjectedFiles.SlashFreeKeys([file]) && InjectedFiles.Fits(path) && Checkouts.EndsInName(path)
  {
    NodeFilesAreValid(machines, groups, prev, k);
    DoneFollows(machines, groups, prev);
    var p := Plan(machines, groups, prev, Start).progress;
    var slot := Slots(groups, p.statuses)[k];
    assert FileFits(machines, p.files[k], slot);
    NodeFilePath(slot.name, p.files[k].host, slot.values);
    PlainNameFits(slot.name);
    Sources.InlineKeySlashFree(0);
  }

  /** The text of a node file, for its member and the cluster. */
  function ContentOf(cluster: string, name: Name, file: NodeFile): string {
    NixString.NodeFileContent(cluster, name, file.host, file.values)
  }

  /**
   Every node file configures its member: it is the fixed text with four string literals,
   which evaluate to the cluster, the Machine's name, the group's values and the Machine's host.
   */
  lemma NodeFileConfigures(
    cluster: string, machines: seq<Machine>, groups: seq<Group>, prev: map<Name, seq<Name>>, k: nat)
    returns (m: Machine)
    requires UniqueMachines(machines) && Plan(machines, groups, prev, Start).Done? && NixString.PlainName(cluster)
    requires k < |Plan(machines, groups, prev, Start).progress.files|
    ensures m in machines
    ensures
      var p := Plan(machines, groups, prev, Start).progress;
      && |p.statuses| == |groups| && k < |Slots(groups, p.statuses)| && Slots(groups, p.statuses)[k].name == m.name
      && var values := Slots(groups, p.statuses)[k].values;
         NixString.Carries(
           ContentOf(cluster, m.name, p.files[k]),
           ["{ lib, ... }:\n{\n  nixcluster.\"", ".members.\"", " =\n    lib.recursiveUpdate (builtins.fromJSON \"",
            ") {\n      install.ip = \"", ";\n    };\n}\n"],
           [cluster, m.name, NixString.NormalizeCR(if values == "" then "{}" else values), NixString.NormalizeCR(m.host)])
  {
    hide Plan, Slots, NixString.Carries, NixString.NodeFileContent, NixString.NormalizeCR;
    NodeFilesMatchMembers(machines, groups, prev);
    var p := Plan(machines, groups, prev, Start).progress;
    var slot, file := Slots(groups, p.statuses)[k], p.files[k];
    assert FileFits(machines, file, slot) && IsHosted(machines, slot.name, file);
    m :| m in machines && Hosts(m, slot.name, file);
    SafeIsPlain(slot.name);
    NixString.NodeFileCarries(cluster, m.name, m.host, file.values);
  }

  lemma SafeIsPlain(name: Name)
    requires SafeSegment(name)
    ensures NixString.PlainName(name)
  {
    forall c | c in name
      ensures c != '/' && Paths.IsSafeChar(c)
    {
    }
  }

  lemma PlainNameFits(name: Name)
    requires SafeSegment(name)
    ensures InjectedFiles.Fits(NodesDir + "/" + name + ".nix") && Checkouts.EndsInName(NodesDir + "/" + name + ".nix")
  {
    hide Paths.Split;
    var last := name + ".nix";
    var segs := ["modules", "nodes", last];
    assert last[|last| - 1] == 'x' && |last| >= 5;
    SplitThree("modules", "nodes", last);
    assert NodesDir == "modules" + "/" + "nodes" && NodesDir + "/" + name + ".nix" == "modules" + "/" + "nodes" + "/" + last;
    assert segs[1..] == ["nodes", last] && ["nodes", last][1..] == [last] && [last][1..] == [];
    var none: seq<string> := [];
    assert none + ["modules"] == ["modules"] && ["modules"] + ["nodes"] == ["modules", "nodes"];
    assert ["modules", "nodes"] + [last] == segs;
    Paths.WalkSnoc(none, none, "modules", false);
    Paths.WalkSnoc(none, ["modules"], "nodes", false);
    Paths.WalkSnoc(none, ["modules", "nodes"], last, false);
    assert Paths.Walk([], segs, false) == segs;
    assert !Checkouts.GitOwn(last) && !Checkouts.GitOwn("modules") && !Checkouts.GitOwn("nodes");
    assert (NodesDir + "/" + name + ".nix")[0] == 'm';
  }

  lemma PathDeterminesName(x: Name, y: Name)
    ensures NodesDir + "/" + x + ".nix" == NodesDir + "/" + y + ".nix" ==> x == y
  {
    var p, q := NodesDir + "/" + x + ".nix", NodesDir + "/" + y + ".nix";
    if p == q {
      assert x == p[|NodesDir| + 1..|p| - 4] && y == q[|NodesDir| + 1..|q| - 4];
    }
  }

  // ----- When it completes ----------------------------------------------------------------

  lemma {:induction false} SafeMembersRender(machines: seq<Machine>, members: seq<Name>, values: string)
    requires forall x :: x in members ==> HostOf(machines, x).Some?
    ensures RenderAll(machines, members, values).Some? <==> forall x :: x in members ==> SafeSegment(x)
  {
    if members != [] {
      var front, last := members[..|members| - 1], members[|members| - 1];
      assert members == front + [last];
      SafeMembersRender(machines, front, values);
      NodeFilePath(last, HostOf(machines, last).value, values);
    }
  }

  lemma StepSucceedsIff(machines: seq<Machine>, g: Group, prev: map<Name, seq<Name>>, p: Progress)
    requires UniqueMachines(machines)
    ensures Step(machines, g, prev, p).Done? <==>
            g.selector.Some? && forall x :: x in GroupMembers(machines, g, Of(prev, g.name), p.claimed) ==> SafeSegment(x)
  {
    hide GroupMembers, SafeSegment, HostOf, RenderAll, Of;
    if g.selector.Some? {
      GroupMembersKnown(machines, g, Of(prev, g.name), p.claimed);
      SafeMembersRender(machines, GroupMembers(machines, g, Of(prev, g.name), p.claimed), g.values);
    }
  }

  /** With selectors that parse and safe Machine names, every reconcile completes. */
  lemma {:induction false} SafeNamesComplete(machines: seq<Machine>, groups: seq<Group>, prev: map<Name, seq<Name>>, p: Progress)
    requires UniqueMachines(machines) && (forall m :: m in machines ==> SafeSegment(m.name))
    requires forall g :: g in groups ==> g.selector.Some?
    ensures Plan(machines, groups, prev, p).Done?
    decreases |groups|
  {
    if groups != [] {
      var g := groups[0];
      GroupMembersKnown(machines, g, Of(prev, g.name), p.claimed);
      StepSucceedsIff(machines, g, prev, p);
      assert forall h :: h in groups[1..] ==> h in groups;
      SafeNamesComplete(machines, groups[1..], prev, Step(machines, g, prev, p).progress);
    }
  }

  // ----- Fixpoint ------------------------------------------------------------------------------

  predicate UniqueGroups(groups: seq<Group>) {
    forall i, j :: 0 <= i < j < |groups| ==> groups[i].name != groups[j].name
  }

  /** The status of an earlier reconcile of the same groups. */
  predicate Fits(groups: seq<Group>, statuses: seq<GroupStatus>) {
    && |statuses| == |groups|
    && forall i :: 0 <= i < |groups| ==>
         statuses[i].name == groups[i].name
         && (groups[i].count.Some? ==> |Elems(statuses[i].members)| <= Wanted(groups[i].count.value))
  }

  lemma {:induction false} LookupFindsGroup(groups: seq<Group>, statuses: seq<GroupStatus>, i: nat)
    requires UniqueGroups(groups) && i < |groups| == |statuses|
    requires forall k :: 0 <= k < |groups| ==> statuses[k].name == groups[k].name
    ensures Of(PreviousMembers(statuses), groups[i].name) == statuses[i].members
    decreases |groups|
  {
    var n := |groups| - 1;
    if i < n { LookupFindsGroup(groups[..n], statuses[..n], i); }
  }

  lemma {:induction false} PlanExtends(machines: seq<Machine>, groups: seq<Group>, prev: map<Name, seq<Name>>, p: Progress)
    requires Plan(machines, groups, prev, p).Done?
    ensures
      var after := Plan(machines, groups, prev, p).progress.statuses;
      |after| == |p.statuses| + |groups| && after[..|p.statuses|] == p.statuses
    decreases |groups|
  {
    if groups != [] {
      var q := Step(machines, groups[0], prev, p).progress;
      PlanExtends(machines, groups[1..], prev, q);
      assert q.statuses[..|p.statuses|] == p.statuses;
    }
  }

  lemma StepAgrees(machines: seq<Machine>, g: Group, prev: map<Name, seq<Name>>, again: map<Name, seq<Name>>, p: Progress)
    requires UniqueMachines(machines) && g.selector.Some?
    requires Of(again, g.name) == GroupMembers(machines, g, Of(prev, g.name), p.claimed)
    ensures Step(machines, g, again, p) == Step(machines, g, prev, p)
  {
    var cands := Candidates(machines, g.selector.value, p.claimed);
    CandidatesMeaning(machines, g.selector.value, p.claimed);
    MembersFixpoint(cands, Elems(Of(prev, g.name)), g.count);
  }

  lemma StepStatus(machines: seq<Machine>, g: Group, prev: map<Name, seq<Name>>, p: Progress)
    requires Step(machines, g, prev, p).Done?
    ensures
      var q := Step(machines, g, prev, p).progress;
      && g.selector.Some? && |q.statuses| == |p.statuses| + 1
      && q.statuses[|p.statuses|].members == GroupMembers(machines, g, Of(prev, g.name), p.claimed)
  {
  }

  lemma {:induction false} PlanAgrees(
    machines: seq<Machine>, groups: seq<Group>, prev: map<Name, seq<Name>>, again: map<Name, seq<Name>>, p: Progress)
    requires UniqueMachines(machines) && Plan(machines, groups, prev, p).Done?
    requires
      var after := Plan(machines, groups, prev, p).progress.statuses;
      |after| == |p.statuses| + |groups|
      && forall i :: 0 <= i < |groups| ==> Of(again, groups[i].name) == after[|p.statuses| + i].members
    ensures Plan(machines, groups, again, p) == Plan(machines, groups, prev, p)
    decreases |groups|
  {
    hide Step, GroupMembers, Of;
    if groups != [] {
      var g := groups[0];
      var after := Plan(machines, groups, prev, p).progress.statuses;
      var q := Step(machines, g, prev, p).progress;
      PlanExtends(machines, groups[1..], prev, q);
      StepStatus(machines, g, prev, p);
      assert after[|p.statuses|] == after[..|q.statuses|][|p.statuses|] == q.statuses[|p.statuses|];
      StepAgrees(machines, g, prev, again, p);
      forall i | 0 <= i < |groups[1..]|
        ensures Of(again, groups[1..][i].name) == after[|q.statuses| + i].members
      {
        assert groups[1..][i] == groups[i + 1];
      }
      PlanAgrees(machines, groups[1..], prev, again, q);
    }
  }

  /** Reconciled again on unchanged Machines, every group, file and flag is reproduced exactly. */
  lemma ReconcileIsFixpoint(machines: seq<Machine>, groups: seq<Group>, previous: seq<GroupStatus>)
    requires UniqueMachines(machines) && UniqueGroups(groups)
    requires Plan(machines, groups, PreviousMembers(previous), Start).Done?
    ensures
      var first := Plan(machines, groups, PreviousMembers(previous), Start);
      Plan(machines, groups, PreviousMembers(first.progress.statuses), Start) == first
  {
    var prev := PreviousMembers(previous);
    var statuses := Plan(machines, groups, prev, Start).progress.statuses;
    NamesFollow(machines, groups, prev);
    forall i | 0 <= i < |groups|
      ensures Of(PreviousMembers(statuses), groups[i].name) == statuses[i].members
    {
      LookupFindsGroup(groups, statuses, i);
    }
    PlanAgrees(machines, groups, prev, PreviousMembers(statuses), Start);
  }

  lemma NamesFollow(machines: seq<Machine>, groups: seq<Group>, prev: map<Name, seq<Name>>)
    requires UniqueMachines(machines) && Plan(machines, groups, prev, Start).Done?
    ensures Fits(groups, Plan(machines, groups, prev, Start).progress.statuses)
  {
    var statuses := Plan(machines, groups, prev, Start).progress.statuses;
    DoneFollows(machines, groups, prev);
    forall i | 0 <= i < |groups|
      ensures statuses[i].name == groups[i].name
      ensures groups[i].count.Some? ==> |Elems(statuses[i].members)| <= Wanted(groups[i].count.value)
    {
      GroupsPartition(machines, groups, prev, i, i);
      SortedDistinct(statuses[i].members);
      DistinctCount(statuses[i].members);
    }
  }

  // ----- Stickiness over runs ---------------------------------------------------------------------

  /** The committed status after a reconcile; a refused one leaves it. */
  function Rerun(groups: seq<Group>, statuses: seq<GroupStatus>, machines: seq<Machine>): seq<GroupStatus> {
    match Plan(machines, groups, PreviousMembers(statuses), Start)
    case Done(p) => p.statuses
    case Refused => statuses
  }

  function RunAll(groups: seq<Group>, statuses: seq<GroupStatus>, snapshots: seq<seq<Machine>>): seq<GroupStatus>
    decreases |snapshots|
  {
    if snapshots == [] then statuses else RunAll(groups, Rerun(groups, statuses, snapshots[0]), snapshots[1..])
  }

  /** In this reconcile the Machine matches the group's selector and no earlier group takes it. */
  predicate IsCandidate(groups: seq<Group>, statuses: seq<GroupStatus>, machines: seq<Machine>, i: nat, x: Name)
    requires i < |groups|
  {
    var after := Rerun(groups, statuses, machines);
    && groups[i].selector.Some? && i <= |after|
    && exists m :: m in machines && m.name == x && Eligible(m, groups[i].selector.value, ClaimedBy(after[..i]))
  }

  predicate StaysCandidate(groups: seq<Group>, statuses: seq<GroupStatus>, snapshots: seq<seq<Machine>>, i: nat, x: Name)
    requires i < |groups|
    decreases |snapshots|
  {
    snapshots == []
    || (UniqueMachines(snapshots[0]) && IsCandidate(groups, statuses, snapshots[0], i, x)
        && StaysCandidate(groups, Rerun(groups, statuses, snapshots[0]), snapshots[1..], i, x))
  }

  lemma StaysSelected(groups: seq<Group>, statuses: seq<GroupStatus>, machines: seq<Machine>, i: nat, x: Name)
    requires UniqueGroups(groups) && Fits(groups, statuses) && UniqueMachines(machines)
    requires i < |groups| && x in statuses[i].members && IsCandidate(groups, statuses, machines, i, x)
    ensures
      var after := Rerun(groups, statuses, machines);
      Fits(groups, after) && x in after[i].members
  {
    var prev := PreviousMembers(statuses);
    if Plan(machines, groups, prev, Start).Done? {
      var after := Rerun(groups, statuses, machines);
      NamesFollow(machines, groups, prev);
      DoneFollows(machines, groups, prev);
      assert StatusFollows(machines, groups, prev, after, i);
      LookupFindsGroup(groups, statuses, i);
      SelectedAgain(machines, groups[i], statuses[i].members, ClaimedBy(after[..i]), x);
    }
  }

  lemma SelectedAgain(machines: seq<Machine>, g: Group, prev: seq<Name>, claimed: set<Name>, x: Name)
    requires UniqueMachines(machines) && g.selector.Some? && x in prev
    requires exists m :: m in machines && m.name == x && Eligible(m, g.selector.value, claimed)
    requires g.count.Some? ==> |Elems(prev)| <= Wanted(g.count.value)
    ensures x in GroupMembers(machines, g, prev, claimed)
  {
    var cands := Candidates(machines, g.selector.value, claimed);
    CandidatesMeaning(machines, g.selector.value, claimed);
    if g.count.Some? { MembersStick(cands, Elems(prev), Wanted(g.count.value), x); }
  }

  /**
   Through any sequence of Machine additions, removals and relabelings, a selected
   Machine that stays a candidate of its group stays selected.
   */
  lemma {:induction false} SelectionSticks(
    groups: seq<Group>, statuses: seq<GroupStatus>, snapshots: seq<seq<Machine>>, i: nat, x: Name)
    requires UniqueGroups(groups) && Fits(groups, statuses)
    requires i < |groups| && x in statuses[i].members && StaysCandidate(groups, statuses, snapshots, i, x)
    ensures
      var after := RunAll(groups, statuses, snapshots);
      Fits(groups, after) && x in after[i].members
    decreases |snapshots|
  {
    if snapshots != [] {
      StaysSelected(groups, statuses, snapshots[0], i, x);
      SelectionSticks(groups, Rerun(groups, statuses, snapshots[0]), snapshots[1..], i, x);
    }
  }

  // ----- Two groups over two Machines ---------------------------------------------------

  /** A Machine that matches an earlier group but is selected by none stays available to later groups. */
  lemma UnselectedStaysAvailable(machines: seq<Machine>, groups: seq<Group>, prev: map<Name, seq<Name>>, j: nat, m: Machine)
    requires UniqueMachines(machines) && Plan(machines, groups, prev, Start).Done? && j < |groups|
    requires groups[j].selector.Some? && m in machines && groups[j].selector.value(m.labels)
    requires
      var statuses := Plan(machines, groups, prev, Start).progress.statuses;
      |statuses| == |groups| && forall k :: 0 <= k < j ==> m.name !in statuses[k].members
    ensures
      var statuses := Plan(machines, groups, prev, Start).progress.statuses;
      m.name in Candidates(machines, groups[j].selector.value, ClaimedBy(statuses[..j]))
  {
    var statuses := Plan(machines, groups, prev, Start).progress.statuses;
    ClaimedMeansMember(statuses[..j], m.name);
    CandidatesMeaning(machines, groups[j].selector.value, ClaimedBy(statuses[..j]));
    assert Eligible(m, groups[j].selector.value, ClaimedBy(statuses[..j]));
  }

  lemma {:induction false} ClaimedMeansMember(statuses: seq<GroupStatus>, x: Name)
    ensures x in ClaimedBy(statuses) <==> exists k :: 0 <= k < |statuses| && x in statuses[k].members
  {
    if statuses != [] {
      var front, last := statuses[..|statuses| - 1], statuses[|statuses| - 1];
      ClaimedMeansMember(front, x);
      assert forall k :: 0 <= k < |front| ==> front[k] == statuses[k];
    }
  }

  /** The two Machines a selector matches. */
  predicate Matches(machines: seq<Machine>, sel: Labels -> bool, x: Name, y: Name) {
    && UniqueMachines(machines) && x != y && SafeSegment(x) && SafeSegment(y)
    && Unclaimed(machines, sel, {}) == {x, y}
  }

  lemma CandidatesLeft(machines: seq<Machine>, sel: Labels -> bool, claimed: set<Name>)
    requires UniqueMachines(machines)
    ensures
      var cands := Candidates(machines, sel, claimed);
      Sorted(cands) && Elems(cands) == Unclaimed(machines, sel, {}) - claimed
  {
    CandidatesMeaning(machines, sel, claimed);
    forall x
      ensures x in Candidates(machines, sel, claimed) <==> x in Unclaimed(machines, sel, {}) && x !in claimed
    {
      if x in Candidates(machines, sel, claimed) {
        var m :| m in machines && m.name == x && Eligible(m, sel, claimed);
        assert Eligible(m, sel, {});
      }
      if x in Unclaimed(machines, sel, {}) && x !in claimed {
        var m :| m in machines && Eligible(m, sel, {}) && m.name == x;
        assert Eligible(m, sel, claimed);
      }
    }
  }

  lemma OnlyCandidate(cands: seq<Name>, x: Name)
    requires Sorted(cands) && Elems(cands) == {x}
    ensures cands == [x]
  {
    SortedUnique(cands, [x]);
  }

  lemma OnlyMember(cands: seq<Name>, prev: set<Name>, x: Name)
    requires Sorted(cands) && x in cands && (cands == [x] || (x in prev && |prev| == 1))
    ensures Members(cands, prev, Some(1)) == [x]
  {
    MembersMeaning(cands, prev, Some(1));
    var members := Members(cands, prev, Some(1));
    if cands == [x] {
      assert members[0] in Elems(members);
    } else {
      MembersStick(cands, prev, 1, x);
      assert x in members;
    }
  }

  /** A group that selects one safe Machine is served. */
  lemma OneIsSelected(machines: seq<Machine>, g: Group, prev: map<Name, seq<Name>>, p: Progress, x: Name)
    requires UniqueMachines(machines) && g.selector.Some? && SafeSegment(x)
    requires GroupMembers(machines, g, Of(prev, g.name), p.claimed) == [x]
    ensures
      var next := Step(machines, g, prev, p);
      && next.Done? && next.progress.claimed == p.claimed + {x}
      && |next.progress.statuses| == |p.statuses| + 1 && next.progress.statuses[..|p.statuses|] == p.statuses
      && next.progress.statuses[|p.statuses|].members == [x] && next.progress.statuses[|p.statuses|].name == g.name
      && (g.count.Some? ==> next.progress.statuses[|p.statuses|] == GroupStatus(g.name, 1, g.count.value, [x]))
  {
    hide SafeSegment, Candidates, Members, Plan;
    StepSucceedsIff(machines, g, prev, p);
    assert Elems([x]) == {x};
  }

  lemma PlanOfTwo(machines: seq<Machine>, g: Group, h: Group, prev: map<Name, seq<Name>>, p: Progress, q: Progress)
    requires Step(machines, g, prev, Start) == Done(p) && Step(machines, h, prev, p) == Done(q)
    ensures Plan(machines, [g, h], prev, Start) == Done(q)
  {
    hide Step;
    assert [g, h][1..] == [h] && [h][1..] == [];
    assert Plan(machines, [], prev, q) == Done(q);
    assert Plan(machines, [h], prev, p) == Done(q);
  }

  function Pair(name: Name, first: Name, second: Name): seq<GroupStatus> {
    [GroupStatus(name, 1, 1, [first]), GroupStatus(name, 1, 1, [second])]
  }

  /** Both select one Machine under one name. */
  ghost predicate Twins(g: Group, h: Group, sel: Labels -> bool) {
    && g.name == h.name && g.count == Some(1) && h.count == Some(1)
    && g.selector.Some? && h.selector.Some? && g.selector.value == sel && h.selector.value == sel
  }

  lemma FirstTwin(machines: seq<Machine>, g: Group, sel: Labels -> bool, x: Name, y: Name)
    requires Matches(machines, sel, x, y) && g.selector.Some? && g.selector.value == sel && g.count == Some(1)
    ensures GroupMembers(machines, g, [y], {}) == [y]
  {
    var cands := Candidates(machines, sel, {});
    assert Elems([y]) == {y};
    CandidatesLeft(machines, sel, {});
    assert y in Elems(cands);
    OnlyMember(cands, {y}, y);
  }

  lemma SecondTwin(machines: seq<Machine>, h: Group, sel: Labels -> bool, x: Name, y: Name)
    requires Matches(machines, sel, x, y) && h.selector.Some? && h.selector.value == sel && h.count == Some(1)
    ensures GroupMembers(machines, h, [y], {y}) == [x]
  {
    assert Elems([y]) == {y} && {x, y} - {y} == {x};
    CandidatesLeft(machines, sel, {y});
    OnlyCandidate(Candidates(machines, sel, {y}), x);
    OnlyMember([x], {y}, x);
  }

  /**
   Two groups of one name share their history: on any two Machines that match both, their
   members swap at every reconcile, although nothing has changed.
   */
  lemma TwinsSwap(machines: seq<Machine>, g: Group, h: Group, sel: Labels -> bool, x: Name, y: Name)
    requires Matches(machines, sel, x, y) && Twins(g, h, sel)
    ensures Rerun([g, h], Pair(g.name, x, y), machines) == Pair(g.name, y, x)
    ensures Pair(g.name, y, x) != Pair(g.name, x, y) && !UniqueGroups([g, h])
  {
    hide Plan, Step, GroupMembers, Candidates, Unclaimed, SafeSegment, PreviousMembers, Of;
    var prev := PreviousMembers(Pair(g.name, x, y));
    LastTwinIsFound(g.name, x, y);
    FirstTwin(machines, g, sel, x, y);
    OneIsSelected(machines, g, prev, Start, y);
    var p := Step(machines, g, prev, Start).progress;
    assert p.claimed == {y};
    SecondTwin(machines, h, sel, x, y);
    OneIsSelected(machines, h, prev, p, x);
    var q := Step(machines, h, prev, p).progress;
    PlanOfTwo(machines, g, h, prev, p, q);
    assert q.statuses[..1][0] == p.statuses[0];
    assert Pair(g.name, y, x)[0].members[0] == y && Pair(g.name, x, y)[0].members[0] == x;
    assert [g, h][0].name == [g, h][1].name;
  }

  lemma LastTwinIsFound(name: Name, x: Name, y: Name)
    ensures Of(PreviousMembers(Pair(name, x, y)), name) == [y]
  {
    assert Pair(name, x, y)[..1] == [Pair(name, x, y)[0]];
  }

  /**
   Of two Machines that match both groups the first group, which wants one, takes the
   lower; the other one, though it matched the first group, becomes a member of the second.
   */
  lemma FirstMatchDoesNotClaim(machines: seq<Machine>, g: Group, h: Group, sel: Labels -> bool, x: Name, y: Name)
    requires Matches(machines, sel, x, y) && Less(x, y)
    requires g.selector.Some? && g.selector.value == sel && g.count == Some(1)
    requires h.selector.Some? && h.selector.value == sel && h.count == None
    ensures
      var out := Plan(machines, [g, h], map[], Start);
      && y in Candidates(machines, sel, {})
      && out.Done? && |out.progress.statuses| == 2
      && out.progress.statuses[0].members == [x] && out.progress.statuses[1].members == [y]
  {
    hide Plan, Step, GroupMembers, Candidates, Unclaimed, SafeSegment;
    var prev: map<Name, seq<Name>> := map[];
    FirstTakesLower(machines, g, sel, x, y);
    OneIsSelected(machines, g, prev, Start, x);
    var p := Step(machines, g, prev, Start).progress;
    assert p.claimed == {x};
    SecondTakesRest(machines, h, sel, x, y);
    OneIsSelected(machines, h, prev, p, y);
    var q := Step(machines, h, prev, p).progress;
    PlanOfTwo(machines, g, h, prev, p, q);
    assert q.statuses[..1][0] == p.statuses[0];
  }

  lemma FirstTakesLower(machines: seq<Machine>, g: Group, sel: Labels -> bool, x: Name, y: Name)
    requires Matches(machines, sel, x, y) && Less(x, y)
    requires g.selector.Some? && g.selector.value == sel && g.count == Some(1)
    ensures GroupMembers(machines, g, [], {}) == [x] && y in Candidates(machines, sel, {})
  {
    var cands := Candidates(machines, sel, {});
    CandidatesLeft(machines, sel, {});
    assert Elems(cands) == {x, y} && y in Elems(cands);
    LowestOfTwo(cands, x, y);
    assert Elems([]) == {};
  }

  lemma SecondTakesRest(machines: seq<Machine>, h: Group, sel: Labels -> bool, x: Name, y: Name)
    requires Matches(machines, sel, x, y) && h.selector.Some? && h.selector.value == sel && h.count == None
    ensures GroupMembers(machines, h, [], {x}) == [y]
  {
    CandidatesLeft(machines, sel, {x});
    assert {x, y} - {x} == {y};
    OnlyCandidate(Candidates(machines, sel, {x}), y);
  }

  lemma LowestOfTwo(cands: seq<Name>, x: Name, y: Name)
    requires Sorted(cands) && Elems(cands) == {x, y} && Less(x, y) && x != ""
    ensures Members(cands, {}, Some(1)) == [x]
  {
    MembersMeaning(cands, {}, Some(1));
    SortedDistinct(cands);
    DistinctCount(cands);
    LessAsymmetric(x, y);
    hide Members, Sorted, Distinct, Less;
    var members := Members(cands, {}, Some(1));
    OneOf(members, x, y);
    assert Elems(members) == {y} ==> Before(Elems(cands) * {}, y, x);
  }

  lemma OneOf(members: seq<Name>, x: Name, y: Name)
    requires |members| == 1 && Elems(members) <= {x, y}
    ensures members == [x] || members == [y]
    ensures Elems(members) == {members[0]}
  {
    assert members[0] in Elems(members);
  }
}
