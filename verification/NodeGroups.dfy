/**
 One reconcile of a NixCluster's node groups, in order: each group selects among the
 Machines that match its selector and no earlier group has claimed, and every member
 gets a node file.
 */
module NodeGroups {
  import opened Names
  import opened NameSets
  import opened Options
  import opened Selection
  import Paths

  type Labels = map<string, string>

  datatype Machine = Machine(name: Name, labels: Labels, host: string)

  /** `selector` is absent when the label selector does not parse; without values the text is empty. */
  datatype Group = Group(name: Name, selector: Option<Labels -> bool>, count: Option<int>, values: string)

  /** A node file and the two texts its content interpolates. */
  datatype NodeFile = NodeFile(path: string, host: string, values: string)

  datatype GroupStatus = GroupStatus(name: Name, selected: nat, desired: int, members: seq<Name>)

  datatype Progress = Progress(
    claimed: set<Name>, statuses: seq<GroupStatus>, files: seq<NodeFile>, under: bool, total: nat)

  const Start := Progress({}, [], [], false, 0)

  datatype Outcome = Done(progress: Progress) | Refused

  /** Names are unique in a namespace. */
  predicate UniqueMachines(machines: seq<Machine>) {
    forall i, j :: 0 <= i < j < |machines| ==> machines[i].name != machines[j].name
  }

  // ----- Candidates ------------------------------------------------------------------

  predicate Eligible(m: Machine, sel: Labels -> bool, claimed: set<Name>) {
    m.name !in claimed && sel(m.labels)
  }

  function Matching(machines: seq<Machine>, sel: Labels -> bool, claimed: set<Name>): seq<Name> {
    if machines == [] then []
    else
      var m := machines[|machines| - 1];
      Matching(machines[..|machines| - 1], sel, claimed) + (if Eligible(m, sel, claimed) then [m.name] else [])
  }

  function Candidates(machines: seq<Machine>, sel: Labels -> bool, claimed: set<Name>): seq<Name> {
    Sort(Matching(machines, sel, claimed))
  }

  method MatchingMachines(machines: seq<Machine>, sel: Labels -> bool, claimed: set<Name>) returns (names: seq<Name>)
    ensures names == Candidates(machines, sel, claimed)
  {
    names := [];
    var i := 0;
    while i < |machines|
      invariant 0 <= i <= |machines|
      invariant names == Matching(machines[..i], sel, claimed)
    {
      assert machines[..i + 1][..i] == machines[..i];
      if machines[i].name !in claimed {
        if sel(machines[i].labels) {
          names := names + [machines[i].name];
        }
      }
      i := i + 1;
    }
    assert machines[..i] == machines;
    names := Sort(names);
  }

  lemma {:induction false} MatchingMeaning(machines: seq<Machine>, sel: Labels -> bool, claimed: set<Name>)
    requires UniqueMachines(machines)
    ensures
      var names := Matching(machines, sel, claimed);
      && Distinct(names)
      && forall x :: x in names <==> exists m :: m in machines && m.name == x && Eligible(m, sel, claimed)
  {
    if machines != [] {
      var front, last := machines[..|machines| - 1], machines[|machines| - 1];
      MatchingMeaning(front, sel, claimed);
      assert machines == front + [last];
      forall m | m in front
        ensures m.name != last.name
      {
      }
      assert last.name !in Matching(front, sel, claimed);
      var names := Matching(machines, sel, claimed);
      forall x | x in names
        ensures exists m :: m in machines && m.name == x && Eligible(m, sel, claimed)
      {
        if x in Matching(front, sel, claimed) {
          var m :| m in front && m.name == x && Eligible(m, sel, claimed);
          assert m in machines;
        } else {
          assert last in machines;
        }
      }
    }
  }

  /** The candidates: the unclaimed Machines that match, sorted. */
  lemma CandidatesMeaning(machines: seq<Machine>, sel: Labels -> bool, claimed: set<Name>)
    requires UniqueMachines(machines)
    ensures
      var names := Candidates(machines, sel, claimed);
      && Sorted(names)
      && forall x :: x in names <==> exists m :: m in machines && m.name == x && Eligible(m, sel, claimed)
  {
    var names := Matching(machines, sel, claimed);
    MatchingMeaning(machines, sel, claimed);
    SortSorts(names);
    forall x
      ensures x in Candidates(machines, sel, claimed) <==> x in names
    {
      assert x in Elems(Sort(names)) <==> x in Elems(names);
    }
  }

  // ----- Node files -------------------------------------------------------------------

  const NodesDir := "modules/nodes"

  predicate HasDotDot(s: string) {
    exists i :: 0 <= i < |s| - 1 && s[i] == '.' && s[i + 1] == '.'
  }

  /** A group without values has the empty object. */
  function JSON(values: string): string {
    if values == "" then "{}" else values
  }

  lemma DotDotMeaning(s: string)
    ensures HasDotDot(s) <==> exists a, b :: s == a + ".." + b
  {
    if HasDotDot(s) {
      var i :| 0 <= i < |s| - 1 && s[i] == '.' && s[i + 1] == '.';
      assert s == s[..i] + ".." + s[i + 2..];
    }
    if a, b :| s == a + ".." + b {
      assert s[|a|] == '.' && s[|a| + 1] == '.';
    }
  }

  function RenderMemberNodeFile(name: Name, host: string, values: string): Option<NodeFile> {
    if name == "" || '/' in name || HasDotDot(name) then None
    else
      var path := Paths.Join(NodesDir, name + ".nix");
      if Paths.ValidateFilePath(path) then Some(NodeFile(path, host, JSON(values))) else None
  }

  /** A single safe segment: what a Machine name must be to get a node file. */
  predicate SafeSegment(name: Name) {
    name != "" && '/' !in name && !HasDotDot(name) && forall c :: c in name ==> Paths.IsSafeChar(c)
  }

  lemma SplitThree(a: string, b: string, c: string)
    requires '/' !in a && '/' !in b && '/' !in c
    ensures Paths.Split(a + "/" + b + "/" + c) == [a, b, c]
  {
    Paths.PlainSplit(a);
    Paths.PlainSplit(b);
    Paths.PlainSplit(c);
    Paths.SplitConcat(a, b);
    Paths.SplitConcat(a + "/" + b, c);
    assert [a] + [b] + [c] == [a, b, c];
  }

  lemma CleanThree(a: string, b: string, c: string)
    requires forall s :: s in [a, b, c] ==> '/' !in s && s != "" && s != "." && s != ".."
    ensures Paths.Clean(a + "/" + b + "/" + c) == a + "/" + b + "/" + c
    ensures Paths.Split(a + "/" + b + "/" + c) == [a, b, c] && Paths.StaysBelow([a, b, c])
  {
    assert a in [a, b, c] && b in [a, b, c] && c in [a, b, c];
    SplitThree(a, b, c);
    ThreeSegments(a, b, c);
    JoinThree(a, b, c);
    ThreeStayBelow(a, b, c);
    var path := a + "/" + b + "/" + c;
    assert path[0] == a[0] && a[0] in a;
  }

  lemma JoinThree(a: string, b: string, c: string)
    ensures Paths.JoinSegments([a, b, c]) == a + "/" + b + "/" + c
  {
    assert [a, b, c][1..] == [b, c];
    assert [b, c][1..] == [c];
    assert Paths.JoinSegments([b, c]) == b + "/" + c;
    assert a + "/" + (b + "/" + c) == a + "/" + b + "/" + c;
  }

  lemma ThreeSegments(a: string, b: string, c: string)
    requires forall s :: s in [a, b, c] ==> s != "" && s != "." && s != ".."
    ensures Paths.Walk([], [a, b, c], false) == [a, b, c]
  {
    assert a in [a, b, c] && b in [a, b, c] && c in [a, b, c];
    Paths.WalkSnoc([], [], a, false);
    Paths.WalkSnoc([], [a], b, false);
    Paths.WalkSnoc([], [a, b], c, false);
    assert [] + [a] == [a] && [a] + [b] == [a, b] && [a, b] + [c] == [a, b, c];
  }

  lemma Deeper(segs: seq<string>, name: string)
    requires Paths.StaysBelow(segs) && name != "" && name != "." && name != ".."
    ensures Paths.StaysBelow(segs + [name])
  {
    assert (segs + [name])[..|segs|] == segs && segs[..|segs|] == segs;
    Paths.BelowIff(segs + [name]);
  }

  lemma ThreeStayBelow(a: string, b: string, c: string)
    requires forall s :: s in [a, b, c] ==> s != "" && s != "." && s != ".."
    ensures Paths.StaysBelow([a, b, c])
  {
    assert a in [a, b, c] && b in [a, b, c] && c in [a, b, c];
    assert [] + [a] == [a] && [a] + [b] == [a, b] && [a, b] + [c] == [a, b, c];
    Deeper([], a);
    Deeper([a], b);
    Deeper([a, b], c);
  }

  /** A member gets its node file exactly if its name is a safe segment, and the name can be read off the path. */
  lemma NodeFilePath(name: Name, host: string, values: string)
    ensures
      var file := RenderMemberNodeFile(name, host, values);
      file == if SafeSegment(name) then Some(NodeFile(NodesDir + "/" + name + ".nix", host, JSON(values))) else None
  {
    if name != "" && '/' !in name && !HasDotDot(name) {
      var seg := name + ".nix";
      var path := NodesDir + "/" + seg;
      assert path == NodesDir + "/" + name + ".nix";
      assert path == "modules" + "/" + "nodes" + "/" + seg;
      assert |seg| > 4;
      CleanThree("modules", "nodes", seg);
      Paths.AcceptedIffStaysBelow(path);
      SafeChars(name, path);
      assert path[0] == 'm';
    }
  }

  lemma SafeChars(name: Name, path: string)
    requires path == NodesDir + "/" + name + ".nix"
    ensures (forall c :: c in path ==> Paths.IsSafeChar(c)) <==> (forall c :: c in name ==> Paths.IsSafeChar(c))
  {
    assert forall c :: c in path <==> c in "modules/nodes/" || c in name || c in ".nix";
    assert forall c :: c in "modules/nodes/" || c in ".nix" ==> Paths.IsSafeChar(c);
  }

  // ----- The group loop -----------------------------------------------------------------

  /** The entry a lookup by name finds; the last one listed if names repeat. */
  function HostOf(machines: seq<Machine>, name: Name): Option<string> {
    if machines == [] then None
    else if machines[|machines| - 1].name == name then Some(machines[|machines| - 1].host)
    else HostOf(machines[..|machines| - 1], name)
  }

  function RenderAll(machines: seq<Machine>, members: seq<Name>, values: string): Option<seq<NodeFile>> {
    if members == [] then Some([])
    else
      var last := members[|members| - 1];
      var front := RenderAll(machines, members[..|members| - 1], values);
      var host := HostOf(machines, last);
      if front.None? || host.None? then None
      else
        var file := RenderMemberNodeFile(last, host.value, values);
        if file.None? then None else Some(front.value + [file.value])
  }

  /** Members of the previous status, by group name. */
  function PreviousMembers(statuses: seq<GroupStatus>): map<Name, seq<Name>> {
    if statuses == [] then map[]
    else
      var g := statuses[|statuses| - 1];
      PreviousMembers(statuses[..|statuses| - 1])[g.name := g.members]
  }

  function Of(prev: map<Name, seq<Name>>, name: Name): seq<Name> {
    if name in prev then prev[name] else []
  }

  /** What a group selects when `claimed` is taken. */
  function GroupMembers(machines: seq<Machine>, g: Group, prev: seq<Name>, claimed: set<Name>): seq<Name>
    requires g.selector.Some?
  {
    Members(Candidates(machines, g.selector.value, claimed), Elems(prev), g.count)
  }

  function StatusOf(machines: seq<Machine>, g: Group, prev: seq<Name>, claimed: set<Name>): GroupStatus
    requires g.selector.Some?
  {
    var members := GroupMembers(machines, g, prev, claimed);
    var matching := |Candidates(machines, g.selector.value, claimed)|;
    GroupStatus(g.name, |members|, if g.count.Some? then g.count.value else matching, members)
  }

  predicate Short(machines: seq<Machine>, g: Group, claimed: set<Name>)
    requires g.selector.Some?
  {
    g.count.Some? && |Candidates(machines, g.selector.value, claimed)| < Wanted(g.count.value)
  }

  function Step(machines: seq<Machine>, g: Group, prev: map<Name, seq<Name>>, p: Progress): Outcome {
    if g.selector.None? then Refused
    else
      var status := StatusOf(machines, g, Of(prev, g.name), p.claimed);
      var files := RenderAll(machines, status.members, g.values);
      if files.None? then Refused
      else
        Done(Progress(p.claimed + Elems(status.members), p.statuses + [status], p.files + files.value,
                      p.under || Short(machines, g, p.claimed), p.total + |status.members|))
  }

  function Plan(machines: seq<Machine>, groups: seq<Group>, prev: map<Name, seq<Name>>, p: Progress): Outcome
    decreases |groups|
  {
    if groups == [] then Done(p)
    else
      var next := Step(machines, groups[0], prev, p);
      if next.Refused? then Refused else Plan(machines, groups[1..], prev, next.progress)
  }

  method IndexHosts(machines: seq<Machine>) returns (byName: map<Name, string>)
    ensures forall x :: if x in byName then HostOf(machines, x) == Some(byName[x]) else HostOf(machines, x) == None
  {
    byName := map[];
    var i := 0;
    while i < |machines|
      invariant 0 <= i <= |machines|
      invariant forall x :: if x in byName then HostOf(machines[..i], x) == Some(byName[x]) else HostOf(machines[..i], x) == None
    {
      assert machines[..i + 1][..i] == machines[..i];
      byName := byName[machines[i].name := machines[i].host];
      i := i + 1;
    }
    assert machines[..i] == machines;
  }

  method CollectPrevious(statuses: seq<GroupStatus>) returns (prev: map<Name, seq<Name>>)
    ensures prev == PreviousMembers(statuses)
  {
    prev := map[];
    var i := 0;
    while i < |statuses|
      invariant 0 <= i <= |statuses|
      invariant prev == PreviousMembers(statuses[..i])
    {
      assert statuses[..i + 1][..i] == statuses[..i];
      prev := prev[statuses[i].name := statuses[i].members];
      i := i + 1;
    }
    assert statuses[..i] == statuses;
  }

  /** The node files of one group's members, in order. */
  method RenderMembers(machines: seq<Machine>, byName: map<Name, string>, members: seq<Name>, values: string)
    returns (files: Option<seq<NodeFile>>)
    requires forall x :: if x in byName then HostOf(machines, x) == Some(byName[x]) else HostOf(machines, x) == None
    requires forall x :: x in members ==> x in byName
    ensures files == RenderAll(machines, members, values)
  {
    var out := [];
    var i := 0;
    while i < |members|
      invariant 0 <= i <= |members|
      invariant RenderAll(machines, members[..i], values) == Some(out)
    {
      assert members[..i + 1][..i] == members[..i];
      assert members[i] in members;
      var file := RenderMemberNodeFile(members[i], byName[members[i]], values);
      if file.None? {
        RefusalStays(machines, members, values, i + 1);
        return None;
      }
      out := out + [file.value];
      i := i + 1;
    }
    assert members[..i] == members;
    files := Some(out);
  }

  lemma {:induction false} RefusalStays(machines: seq<Machine>, members: seq<Name>, values: string, i: nat)
    requires i <= |members| && RenderAll(machines, members[..i], values).None?
    ensures RenderAll(machines, members, values).None?
    decreases |members|
  {
    if i == |members| {
      assert members[..i] == members;
    } else {
      var front := members[..|members| - 1];
      assert front[..i] == members[..i];
      RefusalStays(machines, front, values, i);
    }
  }

  lemma {:induction false} HostKnown(machines: seq<Machine>, m: Machine)
    requires m in machines
    ensures HostOf(machines, m.name).Some?
  {
    if machines[|machines| - 1].name != m.name {
      var front := machines[..|machines| - 1];
      assert machines == front + [machines[|machines| - 1]];
      HostKnown(front, m);
    }
  }

  lemma GroupMembersKnown(machines: seq<Machine>, g: Group, prev: seq<Name>, claimed: set<Name>)
    requires UniqueMachines(machines) && g.selector.Some?
    ensures
      var members := GroupMembers(machines, g, prev, claimed);
      && Sorted(members)
      && forall x :: x in members ==>
           x !in claimed && HostOf(machines, x).Some?
           && exists m :: m in machines && m.name == x && g.selector.value(m.labels)
  {
    var cands := Candidates(machines, g.selector.value, claimed);
    CandidatesMeaning(machines, g.selector.value, claimed);
    MembersMeaning(cands, Elems(prev), g.count);
    var members := GroupMembers(machines, g, prev, claimed);
    forall x | x in members
      ensures x !in claimed && HostOf(machines, x).Some?
      ensures exists m :: m in machines && m.name == x && g.selector.value(m.labels)
    {
      assert x in Elems(members);
      assert x in cands;
      var m :| m in machines && m.name == x && Eligible(m, g.selector.value, claimed);
      HostKnown(machines, m);
    }
  }

  /** One iteration of the group loop. */
  method SelectGroup(machines: seq<Machine>, byName: map<Name, string>, g: Group, prev: seq<Name>, claimed: set<Name>)
    returns (status: GroupStatus, files: Option<seq<NodeFile>>, under: bool)
    requires UniqueMachines(machines) && g.selector.Some?
    requires forall x :: if x in byName then HostOf(machines, x) == Some(byName[x]) else HostOf(machines, x) == None
    ensures status == StatusOf(machines, g, prev, claimed) && under == Short(machines, g, claimed)
    ensures files == RenderAll(machines, status.members, g.values)
  {
    var candidates := MatchingMachines(machines, g.selector.value, claimed);
    CandidatesMeaning(machines, g.selector.value, claimed);
    var members;
    members, under := SelectGroupMembers(candidates, prev, g.count);
    GroupMembersKnown(machines, g, prev, claimed);
    status := GroupStatus(g.name, |members|, if g.count.Some? then g.count.value else |candidates|, members);
    files := RenderMembers(machines, byName, members, g.values);
  }

  /** The plan of the remaining groups takes the next group's step first. */
  lemma PlanStep(machines: seq<Machine>, groups: seq<Group>, prev: map<Name, seq<Name>>, p: Progress, i: nat)
    requires i < |groups|
    ensures
      var next := Step(machines, groups[i], prev, p);
      Plan(machines, groups[i..], prev, p)
      == if next.Refused? then Refused else Plan(machines, groups[i + 1..], prev, next.progress)
  {
    hide Step;
    assert groups[i..][0] == groups[i] && groups[i..][1..] == groups[i + 1..];
  }

  lemma NothingLeft(machines: seq<Machine>, prev: map<Name, seq<Name>>, p: Progress)
    ensures Plan(machines, [], prev, p) == Done(p)
  {
  }

  /** The selection part of a cluster's reconcile. */
  method SelectGroups(machines: seq<Machine>, groups: seq<Group>, previous: seq<GroupStatus>) returns (out: Outcome)
    requires UniqueMachines(machines)
    ensures out == Plan(machines, groups, PreviousMembers(previous), Start)
  {
    hide Plan, StatusOf, RenderAll, Short;
    var byName := IndexHosts(machines);
    var prev := CollectPrevious(previous);
    var claimed, statuses, files: seq<NodeFile>, anyUnder, total: nat := {}, [], [], false, 0;
    assert groups[0..] == groups;
    var i := 0;
    while i < |groups|
      invariant 0 <= i <= |groups|
      invariant Plan(machines, groups, prev, Start)
             == Plan(machines, groups[i..], prev, Progress(claimed, statuses, files, anyUnder, total))
    {
      var g := groups[i];
      ghost var p := Progress(claimed, statuses, files, anyUnder, total);
      PlanStep(machines, groups, prev, p, i);
      if g.selector.None? {
        return Refused;
      }
      var status, rendered, under := SelectGroup(machines, byName, g, Of(prev, g.name), claimed);
      if rendered.None? {
        return Refused;
      }
      claimed := claimed + Elems(status.members);
      anyUnder := anyUnder || under;
      statuses := statuses + [status];
      files := files + rendered.value;
      total := total + |status.members|;
      assert Step(machines, g, prev, p) == Done(Progress(claimed, statuses, files, anyUnder, total));
      i := i + 1;
    }
    assert groups[i..] == [] && groups[0..] == groups;
    NothingLeft(machines, prev, Progress(claimed, statuses, files, anyUnder, total));
    out := Done(Progress(claimed, statuses, files, anyUnder, total));
  }
}
