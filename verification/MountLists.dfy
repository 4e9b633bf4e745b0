/** Mounts merged by path and sorted by path. */
module MountLists {
  import opened Options
  import opened Names
  import opened Pods

  // ----- Sorting by path, keeping the order of equal paths ----------------------

  predicate Ascending(s: seq<Mount>) {
    forall i, j :: 0 <= i < j < |s| ==> !Less(s[j].path, s[i].path)
  }

  function InsertStable(s: seq<Mount>, m: Mount): (r: seq<Mount>)
    ensures |r| == |s| + 1
  {
    if s == [] then [m]
    else if Less(m.path, s[|s| - 1].path) then InsertStable(s[..|s| - 1], m) + [s[|s| - 1]]
    else s + [m]
  }

  function StableSort(s: seq<Mount>): seq<Mount> {
    if s == [] then [] else InsertStable(StableSort(s[..|s| - 1]), s[|s| - 1])
  }

  /** The mounts at one path, in order. */
  function At(s: seq<Mount>, path: string): seq<Mount> {
    if s == [] then []
    else At(s[..|s| - 1], path) + (if s[|s| - 1].path == path then [s[|s| - 1]] else [])
  }

  lemma AtSnoc(s: seq<Mount>, m: Mount, path: string)
    ensures At(s + [m], path) == At(s, path) + (if m.path == path then [m] else [])
  {
    assert (s + [m])[..|s|] == s;
  }

  lemma {:induction false} InsertFacts(s: seq<Mount>, m: Mount)
    requires Ascending(s)
    ensures Ascending(InsertStable(s, m))
    ensures multiset(InsertStable(s, m)) == multiset(s) + multiset{m}
    ensures forall x :: x in InsertStable(s, m) ==> x == m || x in s
  {
    if s != [] {
      var front, last := s[..|s| - 1], s[|s| - 1];
      assert s == front + [last];
      if Less(m.path, last.path) {
        InsertFacts(front, m);
        var r := InsertStable(front, m);
        LessAsymmetric(m.path, last.path);
        forall i | 0 <= i < |r|
          ensures !Less(last.path, r[i].path)
        {
          assert r[i] in r;
        }
      } else {
        forall i | 0 <= i < |s|
          ensures !Less(m.path, s[i].path)
        {
          if Less(m.path, s[i].path) { NotLessTransitive(m.path, s[i].path, last.path); }
        }
      }
    }
  }

  lemma NotLessTransitive(a: string, b: string, c: string)
    requires Less(a, b) && !Less(c, b)
    ensures Less(a, c)
  {
    LessTotal(b, c);
    if Less(b, c) { LessTransitive(a, b, c); }
  }

  lemma {:induction false} InsertAt(s: seq<Mount>, m: Mount, path: string)
    ensures At(InsertStable(s, m), path) == At(s, path) + (if m.path == path then [m] else [])
  {
    AtSnoc(s, m, path);
    if s == [] {
      assert [] + [m] == [m];
    } else {
      var front, last := s[..|s| - 1], s[|s| - 1];
      if Less(m.path, last.path) {
        InsertAt(front, m, path);
        AtSnoc(InsertStable(front, m), last, path);
        LessIrreflexive(m.path);
      }
    }
  }

  lemma {:induction false} SortFacts(s: seq<Mount>)
    ensures Ascending(StableSort(s)) && multiset(StableSort(s)) == multiset(s)
  {
    if s != [] {
      assert s == s[..|s| - 1] + [s[|s| - 1]];
      SortFacts(s[..|s| - 1]);
      InsertFacts(StableSort(s[..|s| - 1]), s[|s| - 1]);
    }
  }

  lemma {:induction false} SortKeepsAt(s: seq<Mount>, path: string)
    ensures At(StableSort(s), path) == At(s, path)
  {
    if s != [] {
      SortKeepsAt(s[..|s| - 1], path);
      InsertAt(StableSort(s[..|s| - 1]), s[|s| - 1], path);
    }
  }

  lemma {:induction false} SortedStays(s: seq<Mount>)
    requires Ascending(s)
    ensures StableSort(s) == s
  {
    if s != [] {
      var front, last := s[..|s| - 1], s[|s| - 1];
      SortedStays(front);
      assert front + [last] == s;
      if front != [] { assert !Less(last.path, front[|front| - 1].path); }
    }
  }

  // ----- Merging by path -----------------------------------------------------------

  function LastIndex(s: seq<Mount>, path: string): (i: Option<nat>)
    ensures i.Some? ==> i.value < |s| && s[i.value].path == path
  {
    if s == [] then None
    else if s[|s| - 1].path == path then Some(|s| - 1)
    else LastIndex(s[..|s| - 1], path)
  }

  /** One mount into `cur`; positions are those of the original list. */
  function Put(orig: seq<Mount>, cur: seq<Mount>, m: Mount): seq<Mount>
    requires |orig| <= |cur|
  {
    match LastIndex(orig, m.path)
    case Some(i) => cur[i := m]
    case None => cur + [m]
  }

  function PutAll(orig: seq<Mount>, add: seq<Mount>): (r: seq<Mount>)
    ensures |orig| <= |r|
  {
    if add == [] then orig else Put(orig, PutAll(orig, add[..|add| - 1]), add[|add| - 1])
  }

  function Merged(mounts: seq<Mount>, add: seq<Mount>): seq<Mount> {
    StableSort(PutAll(mounts, add))
  }

  method UpsertMounts(mounts: seq<Mount>, add: seq<Mount>) returns (out: seq<Mount>)
    ensures out == Merged(mounts, add)
  {
    var byPath: map<string, nat> := map[];
    var i := 0;
    while i < |mounts|
      invariant 0 <= i <= |mounts|
      invariant forall p :: if p in byPath then LastIndex(mounts[..i], p) == Some(byPath[p]) else LastIndex(mounts[..i], p) == None
    {
      assert mounts[..i + 1][..i] == mounts[..i];
      byPath := byPath[mounts[i].path := i];
      i := i + 1;
    }
    assert mounts[..i] == mounts;
    out := mounts;
    var j := 0;
    while j < |add|
      invariant 0 <= j <= |add|
      invariant out == PutAll(mounts, add[..j])
    {
      assert add[..j + 1][..j] == add[..j];
      if add[j].path in byPath {
        out := out[byPath[add[j].path] := add[j]];
      } else {
        out := out + [add[j]];
      }
      j := j + 1;
    }
    assert add[..j] == add;
    out := StableSort(out);
  }

  predicate DistinctPaths(add: seq<Mount>) {
    forall i, j :: 0 <= i < j < |add| ==> add[i].path != add[j].path
  }

  /** The last mount at the path is this one. */
  predicate Shows(s: seq<Mount>, m: Mount) {
    var at := At(s, m.path);
    at != [] && at[|at| - 1] == m
  }

  lemma {:induction false} LastIndexLater(s: seq<Mount>, path: string, i: nat)
    requires LastIndex(s, path) == Some(i)
    ensures forall k :: i < k < |s| ==> s[k].path != path
  {
    if i < |s| - 1 { LastIndexLater(s[..|s| - 1], path, i); }
  }

  lemma {:induction false} LastIndexNone(s: seq<Mount>, path: string)
    requires LastIndex(s, path) == None
    ensures forall k :: 0 <= k < |s| ==> s[k].path != path
  {
    if s != [] { LastIndexNone(s[..|s| - 1], path); }
  }

  lemma {:induction false} ShowsAt(s: seq<Mount>, m: Mount, i: nat)
    requires i < |s| && s[i] == m && forall k :: i < k < |s| ==> s[k].path != m.path
    ensures Shows(s, m)
  {
    if i < |s| - 1 { ShowsAt(s[..|s| - 1], m, i); }
  }

  lemma {:induction false} ShowsLastIndex(s: seq<Mount>, m: Mount)
    requires Shows(s, m)
    ensures LastIndex(s, m.path).Some? && s[LastIndex(s, m.path).value] == m
  {
    if s[|s| - 1].path != m.path { ShowsLastIndex(s[..|s| - 1], m); }
  }

  /** The original positions keep their paths; what is appended is new. */
  lemma {:induction false} PutAllShape(orig: seq<Mount>, add: seq<Mount>)
    ensures
      var r := PutAll(orig, add);
      && (forall k :: 0 <= k < |orig| ==> r[k].path == orig[k].path)
      && (forall k :: |orig| <= k < |r| ==> exists i :: 0 <= i < |add| && r[k] == add[i])
  {
    if add != [] {
      var front := add[..|add| - 1];
      PutAllShape(orig, front);
      var before, r := PutAll(orig, front), PutAll(orig, add);
      forall k | |orig| <= k < |r|
        ensures exists i :: 0 <= i < |add| && r[k] == add[i]
      {
        if k < |before| {
          assert r[k] == before[k];
          var i :| 0 <= i < |front| && before[k] == front[i];
          assert add[i] == front[i];
        } else {
          assert r[k] == add[|add| - 1];
        }
      }
    }
  }

  lemma {:induction false} PutShows(orig: seq<Mount>, add: seq<Mount>)
    requires add != [] && DistinctPaths(add)
    ensures Shows(PutAll(orig, add), add[|add| - 1])
  {
    var front, m := add[..|add| - 1], add[|add| - 1];
    PutAllShape(orig, front);
    var before := PutAll(orig, front);
    match LastIndex(orig, m.path) {
      case Some(i) =>
        LastIndexLater(orig, m.path, i);
        forall k | i < k < |before|
          ensures before[k].path != m.path
        {
        }
        ShowsAt(before[i := m], m, i);
      case None =>
        ShowsAt(before + [m], m, |before|);
    }
  }

  lemma {:induction false} AtUpdated(s: seq<Mount>, i: nat, m: Mount, path: string)
    requires i < |s| && s[i].path != path && m.path != path
    ensures At(s[i := m], path) == At(s, path)
  {
    var front := s[..|s| - 1];
    if i < |front| {
      assert s[i := m][..|s| - 1] == front[i := m];
      AtUpdated(front, i, m, path);
    } else {
      assert s[i := m][..|s| - 1] == front;
    }
  }

  lemma PutKeepsAt(orig: seq<Mount>, cur: seq<Mount>, m: Mount, path: string)
    requires |orig| <= |cur| && (forall k :: 0 <= k < |orig| ==> cur[k].path == orig[k].path) && m.path != path
    ensures At(Put(orig, cur, m), path) == At(cur, path)
  {
    match LastIndex(orig, m.path) {
      case Some(i) => AtUpdated(cur, i, m, path);
      case None => AtSnoc(cur, m, path);
    }
  }

  lemma PutKeepsShown(orig: seq<Mount>, add: seq<Mount>, x: Mount)
    requires add != [] && x.path != add[|add| - 1].path && Shows(PutAll(orig, add[..|add| - 1]), x)
    ensures Shows(PutAll(orig, add), x)
  {
    var front, m := add[..|add| - 1], add[|add| - 1];
    PutAllShape(orig, front);
    PutKeepsAt(orig, PutAll(orig, front), m, x.path);
    assert PutAll(orig, add) == Put(orig, PutAll(orig, front), m);
  }

  lemma {:induction false} AllShown(orig: seq<Mount>, add: seq<Mount>)
    requires DistinctPaths(add)
    ensures forall i :: 0 <= i < |add| ==> Shows(PutAll(orig, add), add[i])
  {
    if add != [] {
      AllShown(orig, add[..|add| - 1]);
      PutShows(orig, add);
      forall i | 0 <= i < |add| - 1
        ensures Shows(PutAll(orig, add), add[i])
      {
        assert add[..|add| - 1][i] == add[i];
        PutKeepsShown(orig, add, add[i]);
      }
    }
  }

  lemma {:induction false} ShownStays(s: seq<Mount>, add: seq<Mount>)
    requires forall i :: 0 <= i < |add| ==> Shows(s, add[i])
    ensures PutAll(s, add) == s
  {
    if add != [] {
      ShownStays(s, add[..|add| - 1]);
      var m := add[|add| - 1];
      ShowsLastIndex(s, m);
    }
  }

  /** The merged list is sorted and every added mount is the effective one at its path. */
  lemma MergeShowsAll(mounts: seq<Mount>, add: seq<Mount>)
    requires DistinctPaths(add)
    ensures Ascending(Merged(mounts, add))
    ensures forall i :: 0 <= i < |add| ==> Shows(Merged(mounts, add), add[i])
  {
    AllShown(mounts, add);
    SortFacts(PutAll(mounts, add));
    forall i | 0 <= i < |add|
      ensures Shows(Merged(mounts, add), add[i])
    {
      SortKeepsAt(PutAll(mounts, add), add[i].path);
    }
  }

  /** Merged twice it is as if merged once, also where paths repeat in the list itself. */
  lemma MergeIdempotent(mounts: seq<Mount>, add: seq<Mount>)
    requires DistinctPaths(add)
    ensures Merged(Merged(mounts, add), add) == Merged(mounts, add)
  {
    MergeShowsAll(mounts, add);
    ShownStays(Merged(mounts, add), add);
    SortedStays(Merged(mounts, add));
  }

  /** Mounts at other paths survive, as often as they were there and in their order at each path. */
  lemma MergeKeepsOthers(mounts: seq<Mount>, add: seq<Mount>, path: string)
    requires forall i :: 0 <= i < |add| ==> add[i].path != path
    ensures At(Merged(mounts, add), path) == At(mounts, path)
  {
    SortKeepsAt(PutAll(mounts, add), path);
    PutAllKeepsOthers(mounts, add, path);
  }

  lemma {:induction false} PutAllKeepsOthers(mounts: seq<Mount>, add: seq<Mount>, path: string)
    requires forall i :: 0 <= i < |add| ==> add[i].path != path
    ensures At(PutAll(mounts, add), path) == At(mounts, path)
  {
    if add != [] {
      var front, m := add[..|add| - 1], add[|add| - 1];
      PutAllKeepsOthers(mounts, front, path);
      PutAllShape(mounts, front);
      PutKeepsAt(mounts, PutAll(mounts, front), m, path);
    }
  }

  /** The last mount gives way, or there was none and this is the only one. */
  function Replaced(at: seq<Mount>, m: Mount): seq<Mount> {
    if at == [] then [m] else at[..|at| - 1] + [m]
  }

  lemma {:induction false} AtLastUpdated(s: seq<Mount>, i: nat, m: Mount)
    requires i < |s| && s[i].path == m.path && forall k :: i < k < |s| ==> s[k].path != m.path
    ensures At(s[i := m], m.path) == Replaced(At(s, m.path), m)
  {
    var front := s[..|s| - 1];
    if i < |front| {
      assert s[i := m][..|s| - 1] == front[i := m];
      AtLastUpdated(front, i, m);
    } else {
      assert s[i := m][..|s| - 1] == front;
      assert (At(front, m.path) + [s[i]])[..|At(front, m.path)|] == At(front, m.path);
    }
  }

  lemma {:induction false} AtAbsent(s: seq<Mount>, path: string)
    requires forall k :: 0 <= k < |s| ==> s[k].path != path
    ensures At(s, path) == []
  {
    if s != [] { AtAbsent(s[..|s| - 1], path); }
  }

  lemma PutReplaces(orig: seq<Mount>, cur: seq<Mount>, m: Mount)
    requires |orig| <= |cur| && forall k :: 0 <= k < |orig| ==> cur[k].path == orig[k].path
    requires forall k :: |orig| <= k < |cur| ==> cur[k].path != m.path
    ensures At(Put(orig, cur, m), m.path) == Replaced(At(cur, m.path), m)
  {
    match LastIndex(orig, m.path)
    case Some(i) =>
      LastIndexLater(orig, m.path, i);
      forall k | i < k < |cur|
        ensures cur[k].path != m.path
      {
        if k < |orig| { assert orig[k].path != m.path; }
      }
      AtLastUpdated(cur, i, m);
    case None =>
      LastIndexNone(orig, m.path);
      forall k | 0 <= k < |cur|
        ensures cur[k].path != m.path
      {
        if k < |orig| { assert orig[k].path != m.path; }
      }
      AtAbsent(cur, m.path);
      AtSnoc(cur, m, m.path);
  }

  lemma {:induction false} AllReplace(orig: seq<Mount>, add: seq<Mount>, i: nat)
    requires DistinctPaths(add) && i < |add|
    ensures At(PutAll(orig, add), add[i].path) == Replaced(At(orig, add[i].path), add[i])
    decreases |add|
  {
    var front, m := add[..|add| - 1], add[|add| - 1];
    PutAllShape(orig, front);
    var before := PutAll(orig, front);
    if i < |front| {
      assert front[i] == add[i];
      AllReplace(orig, front, i);
      PutKeepsAt(orig, before, m, add[i].path);
    } else {
      forall k | |orig| <= k < |before|
        ensures before[k].path != m.path
      {
        var j :| 0 <= j < |front| && before[k] == front[j];
        assert front[j] == add[j];
      }
      PutReplaces(orig, before, m);
      OthersKeepAt(orig, front, m.path);
    }
  }

  lemma {:induction false} OthersKeepAt(orig: seq<Mount>, add: seq<Mount>, path: string)
    requires forall i :: 0 <= i < |add| ==> add[i].path != path
    ensures At(PutAll(orig, add), path) == At(orig, path)
  {
    if add != [] {
      var front := add[..|add| - 1];
      OthersKeepAt(orig, front, path);
      PutAllShape(orig, front);
      PutKeepsAt(orig, PutAll(orig, front), add[|add| - 1], path);
    }
  }

  /** At the path of an added mount the last one listed gives way to it, and earlier ones stay. */
  lemma MergeReplacesLast(mounts: seq<Mount>, add: seq<Mount>, i: nat)
    requires DistinctPaths(add) && i < |add|
    ensures At(Merged(mounts, add), add[i].path) == Replaced(At(mounts, add[i].path), add[i])
  {
    AllReplace(mounts, add, i);
    SortKeepsAt(PutAll(mounts, add), add[i].path);
  }
}
