/**
 Which Machines one node group of a NixCluster gets: members selected before stay,
 vacancies are filled upward from the highest member first, and shrinking drops
 the highest names.
 */
module Selection {
  import opened Names
  import opened NameSets
  import opened Options

  // ----- What is selected --------------------------------------------------------

  /** The highest name of a sorted list; the empty name if there is none. */
  function Highest(s: seq<Name>): Name {
    if s == [] then "" else s[|s| - 1]
  }

  /** Candidates not yet kept and, if there is a floor, beyond it. */
  function Open(cands: seq<Name>, kept: set<Name>, floor: Option<Name>): set<Name> {
    set c | c in cands && c !in kept && (floor.Some? ==> Less(floor.value, c))
  }

  /** What one pass over the candidates adds. */
  function Added(cands: seq<Name>, kept: set<Name>, floor: Option<Name>, places: nat): seq<Name> {
    First(Only(cands, Open(cands, kept, floor)), places)
  }

  /** What the two passes add to the members kept. */
  function Filled(cands: seq<Name>, kept: seq<Name>, n: nat): set<Name>
    requires |kept| <= n
  {
    var up := Added(cands, Elems(kept), Some(Highest(kept)), n - |kept|);
    Elems(kept) + Elems(up) + Elems(Added(cands, Elems(kept) + Elems(up), None, n - |kept| - |up|))
  }

  function Chosen(cands: seq<Name>, prev: set<Name>, n: nat): set<Name> {
    var kept := Only(cands, prev);
    if |kept| >= n then Elems(First(kept, n)) else Filled(cands, kept, n)
  }

  function Wanted(count: int): nat {
    if count < 0 then 0 else count
  }

  function Members(cands: seq<Name>, prev: set<Name>, count: Option<int>): seq<Name> {
    match count
    case None => cands
    case Some(c) => Only(cands, Chosen(cands, prev, Wanted(c)))
  }

  // ----- The algorithm -------------------------------------------------------------

  method SelectGroupMembers(candidates: seq<Name>, prev: seq<Name>, count: Option<int>)
    returns (members: seq<Name>, underprovisioned: bool)
    requires Sorted(candidates)
    ensures members == Members(candidates, Elems(prev), count)
    ensures underprovisioned <==> count.Some? && |candidates| < Wanted(count.value)
  {
    if count.None? {
      return candidates, false;
    }
    var n := count.value;
    if n < 0 {
      n := 0;
    }
    hide Less, Only, Elems, Sort, Chosen, Filled, Distinct, Sorted;
    var kept, keptSet := KeepPrevious(candidates, prev);

    if |kept| > n {
      kept := Sort(kept);
      keptSet := keptSet - Elems(kept[n..]);
      kept := kept[..n];
      LowestKept(candidates, Elems(prev), n, kept);
    } else {
      KeptIsChosen(candidates, Elems(prev), n, kept);
    }

    if |kept| < n {
      var maxKept := MaxName(kept);
      HighestKept(candidates, Elems(prev), kept, maxKept);
      kept, keptSet := FillUp(candidates, Elems(prev), kept, keptSet, maxKept, n);
    }
    members := Sort(kept);
    underprovisioned := |members| < n;
    SortedChosen(candidates, Elems(prev), n, kept);
  }

  /** The two passes: upward from the highest member kept, then lowest first. */
  method FillUp(candidates: seq<Name>, ghost prev: set<Name>, before: seq<Name>, beforeSet: set<Name>, maxKept: Name, n: int)
    returns (kept: seq<Name>, keptSet: set<Name>)
    requires Sorted(candidates) && Distinct(before) && |before| == |Only(candidates, prev)| < n
    requires beforeSet == Elems(before) == Elems(Only(candidates, prev)) && maxKept == Highest(Only(candidates, prev))
    ensures Distinct(kept) && keptSet == Elems(kept) == Chosen(candidates, prev, n)
  {
    hide Less, Only, Elems, Distinct, Sorted, Added;
    kept, keptSet := TopUp(candidates, before, beforeSet, Some(maxKept), n);
    kept, keptSet := TopUp(candidates, kept, keptSet, None, n);
  }

  lemma LowestKept(cands: seq<Name>, prev: set<Name>, n: nat, kept: seq<Name>)
    requires Sorted(cands) && |Only(cands, prev)| > n && kept == Only(cands, prev)[..n]
    ensures Distinct(kept) && Elems(kept) == Chosen(cands, prev, n)
  {
    OnlySorted(cands, prev);
    SortedDistinct(kept);
  }

  lemma KeptIsChosen(cands: seq<Name>, prev: set<Name>, n: nat, kept: seq<Name>)
    requires |kept| == |Only(cands, prev)| <= n && Elems(kept) == Elems(Only(cands, prev))
    ensures |kept| == n ==> Elems(kept) == Chosen(cands, prev, n)
  {
    if |kept| == n { assert First(Only(cands, prev), n) == Only(cands, prev); }
  }

  lemma HighestKept(cands: seq<Name>, prev: set<Name>, kept: seq<Name>, max: Name)
    requires Sorted(cands) && Elems(kept) == Elems(Only(cands, prev))
    requires (max == "" || max in kept) && forall k :: 0 <= k < |kept| ==> !Less(max, kept[k])
    ensures max == Highest(Only(cands, prev))
  {
    OnlySorted(cands, prev);
    MaxIsHighest(Only(cands, prev), kept, max);
  }

  /** The previous members that are still candidates, each once. */
  method KeepPrevious(candidates: seq<Name>, prev: seq<Name>) returns (kept: seq<Name>, keptSet: set<Name>)
    requires Sorted(candidates)
    ensures Distinct(kept) && keptSet == Elems(kept) == Elems(Only(candidates, Elems(prev)))
    ensures Sort(kept) == Only(candidates, Elems(prev)) && |kept| == |Only(candidates, Elems(prev))|
  {
    var candSet := Elems(candidates);
    kept, keptSet := [], {};
    var i := 0;
    while i < |prev|
      invariant 0 <= i <= |prev|
      invariant Distinct(kept) && keptSet == Elems(kept) == candSet * Elems(prev[..i])
    {
      assert prev[..i + 1] == prev[..i] + [prev[i]];
      if prev[i] in candSet && prev[i] !in keptSet {
        ElemsConcat(kept, [prev[i]]);
        kept := kept + [prev[i]];
        keptSet := keptSet + {prev[i]};
      }
      i := i + 1;
    }
    assert prev[..i] == prev;
    KeptIsBase(candidates, prev, kept);
  }

  method MaxName(names: seq<Name>) returns (max: Name)
    ensures max == "" || max in names
    ensures forall k :: 0 <= k < |names| ==> !Less(max, names[k])
  {
    max := "";
    var i := 0;
    while i < |names|
      invariant 0 <= i <= |names|
      invariant max == "" || max in names
      invariant forall k :: 0 <= k < i ==> !Less(max, names[k])
    {
      if Less(max, names[i]) {
        forall k | 0 <= k < i
          ensures !Less(names[i], names[k])
        {
          if Less(names[i], names[k]) { LessTransitive(max, names[i], names[k]); }
        }
        LessIrreflexive(names[i]);
        max := names[i];
      }
      i := i + 1;
    }
  }

  /** One pass over the candidates, in order, until all places are filled. */
  method TopUp(candidates: seq<Name>, before: seq<Name>, beforeSet: set<Name>, floor: Option<Name>, n: int)
    returns (kept: seq<Name>, keptSet: set<Name>)
    requires Sorted(candidates) && Distinct(before) && beforeSet == Elems(before) && |before| <= n
    ensures Distinct(kept) && keptSet == Elems(kept)
    ensures
      var added := Added(candidates, beforeSet, floor, n - |before|);
      Elems(kept) == Elems(before) + Elems(added) && |kept| == |before| + |added| && |kept| <= n
  {
    hide Only;
    kept, keptSet := before, beforeSet;
    assert Only(candidates[..0], Open(candidates, beforeSet, floor)) == [];
    ghost var open := Open(candidates, beforeSet, floor);
    var i := 0;
    while i < |candidates| && |kept| < n
      invariant 0 <= i <= |candidates| && |kept| <= n
      invariant Distinct(kept) && keptSet == Elems(kept)
      invariant keptSet == beforeSet + Elems(Only(candidates[..i], open))
      invariant |kept| == |before| + |Only(candidates[..i], open)|
    {
      var c := candidates[i];
      FillStep(candidates, beforeSet, floor, i);
      assert c in open <==> c !in keptSet && (floor.Some? ==> Less(floor.value, c));
      if c !in keptSet && (floor.Some? ==> Less(floor.value, c)) {
        ElemsSnoc(kept, c);
        kept := kept + [c];
        keptSet := keptSet + {c};
      }
      i := i + 1;
    }
    FilledTo(candidates, open, i, n - |before|);
  }

  /** Sorted, the chosen names are the members in candidate order. */
  lemma SortedChosen(cands: seq<Name>, prev: set<Name>, n: nat, kept: seq<Name>)
    requires Sorted(cands) && Distinct(kept) && Elems(kept) == Chosen(cands, prev, n)
    ensures Sort(kept) == Only(cands, Chosen(cands, prev, n))
    ensures |Sort(kept)| == Min(n, |cands|)
  {
    ChosenProper(cands, prev, n);
    SortSorts(kept);
    OnlySorted(cands, Chosen(cands, prev, n));
    SortedUnique(Sort(kept), Only(cands, Chosen(cands, prev, n)));
    DistinctCount(kept);
    SortedDistinct(cands);
    DistinctCount(cands);
  }

  lemma KeptIsBase(cands: seq<Name>, prev: seq<Name>, kept: seq<Name>)
    requires Sorted(cands) && Distinct(kept) && Elems(kept) == Elems(cands) * Elems(prev)
    ensures Sort(kept) == Only(cands, Elems(prev)) && |kept| == |Only(cands, Elems(prev))|
    ensures Elems(kept) == Elems(Only(cands, Elems(prev)))
  {
    OnlySorted(cands, Elems(prev));
    SortSorts(kept);
    SortedUnique(Sort(kept), Only(cands, Elems(prev)));
  }

  lemma MaxIsHighest(base: seq<Name>, kept: seq<Name>, max: Name)
    requires Sorted(base) && Elems(kept) == Elems(base)
    requires (max == "" || max in kept) && forall k :: 0 <= k < |kept| ==> !Less(max, kept[k])
    ensures max == Highest(base)
  {
    if base == [] {
      assert max !in Elems(base);
    } else {
      var top := base[|base| - 1];
      assert top in Elems(kept);
      assert !Less(max, top);
      LessTotal(max, top);
      if max in kept {
        assert max in Elems(base);
        var j :| 0 <= j < |base| && base[j] == max;
      }
    }
  }

  /** One candidate of a pass over the candidates. */
  lemma FillStep(cands: seq<Name>, before: set<Name>, floor: Option<Name>, i: nat)
    requires Sorted(cands) && i < |cands|
    ensures
      var open := Open(cands, before, floor);
      var taken, next, c := Only(cands[..i], open), Only(cands[..i + 1], open), cands[i];
      && c !in taken
      && (c in open <==> c !in before + Elems(taken) && (floor.Some? ==> Less(floor.value, c)))
      && |next| == |taken| + (if c in open then 1 else 0)
      && Elems(next) == (if c in open then Elems(taken) + {c} else Elems(taken))
  {
    var open := Open(cands, before, floor);
    SortedDistinct(cands);
    assert cands[..i + 1][..i] == cands[..i];
    ElemsSnoc(Only(cands[..i], open), cands[i]);
  }

  /** A pass that went through the candidates or filled all places took the first ones. */
  lemma FilledTo(cands: seq<Name>, open: set<Name>, i: nat, places: nat)
    requires i <= |cands| && |Only(cands[..i], open)| <= places
    requires i < |cands| ==> |Only(cands[..i], open)| == places
    ensures Only(cands[..i], open) == First(Only(cands, open), places)
  {
    OnlyPrefix(cands, open, i);
    if i == |cands| { assert cands[..i] == cands; }
  }

  // ----- What the selection means -----------------------------------------------------

  /** The name is above every member kept. */
  predicate Above(kept: set<Name>, x: Name) {
    x != "" && forall k :: k in kept ==> Less(k, x)
  }

  /** The order in which vacancies are filled: upward names first, lowest first among equals. */
  predicate Before(kept: set<Name>, x: Name, y: Name) {
    (Above(kept, x) && !Above(kept, y)) || ((Above(kept, x) <==> Above(kept, y)) && Less(x, y))
  }

  /**
   A selection of `n` out of the candidates: as many as there can be; former members
   go only if there are too many, the highest first; newcomers come only if there are
   too few, first come first in the filling order.
   */
  predicate Proper(cands: set<Name>, prev: set<Name>, n: nat, chosen: set<Name>) {
    var kept := cands * prev;
    && chosen <= cands && |chosen| == Min(n, |cands|)
    && (|kept| >= n ==> chosen <= kept && forall x, y :: x in chosen && y in kept - chosen ==> Less(x, y))
    && (|kept| < n ==> kept <= chosen && forall x, y :: x in chosen - kept && y in cands - chosen ==> Before(kept, x, y))
  }

  lemma FirstAreLowest(s: seq<Name>, k: nat)
    requires Sorted(s)
    ensures forall x, y :: x in Elems(First(s, k)) && y in Elems(s) - Elems(First(s, k)) ==> Less(x, y)
    ensures |Elems(First(s, k))| == |First(s, k)| == Min(k, |s|) && Elems(First(s, k)) <= Elems(s)
  {
    SortedDistinct(s);
    DistinctCount(First(s, k));
    forall x, y | x in Elems(First(s, k)) && y in Elems(s) - Elems(First(s, k))
      ensures Less(x, y)
    {
      var i :| 0 <= i < |First(s, k)| && s[i] == x;
      var j :| 0 <= j < |s| && s[j] == y;
      assert forall q :: 0 <= q < |First(s, k)| ==> s[q] in Elems(First(s, k));
    }
  }

  lemma HighestBounds(kept: seq<Name>, x: Name)
    requires Sorted(kept)
    ensures Less(Highest(kept), x) <==> Above(Elems(kept), x)
  {
    if kept != [] {
      var top := kept[|kept| - 1];
      assert top in Elems(kept);
      if Less(top, x) {
        forall k | k in Elems(kept)
          ensures Less(k, x)
        {
          var j :| 0 <= j < |kept| && kept[j] == k;
          if j < |kept| - 1 { LessTransitive(k, top, x); }
        }
      }
    }
  }

  lemma SubsetCount(a: set<Name>, b: set<Name>)
    requires a <= b
    ensures |a| <= |b| && (|a| == |b| ==> a == b)
  {
    assert b == a + (b - a);
  }

  /** The code selects a proper selection. */
  lemma ChosenProper(cands: seq<Name>, prev: set<Name>, n: nat)
    requires Sorted(cands)
    ensures Proper(Elems(cands), prev, n, Chosen(cands, prev, n))
  {
    var kept := Only(cands, prev);
    OnlySorted(cands, prev);
    SortedDistinct(kept);
    DistinctCount(kept);
    if |kept| < n {
      FilledCount(cands, kept, n);
      FilledOrder(cands, kept, n);
    } else {
      FirstAreLowest(kept, n);
      SubsetCount(Elems(kept), Elems(cands));
    }
  }

  lemma AddedFacts(cands: seq<Name>, kept: set<Name>, floor: Option<Name>, places: nat)
    requires Sorted(cands)
    ensures
      var open, added := Open(cands, kept, floor), Added(cands, kept, floor, places);
      && open !! kept && open <= Elems(cands) && (floor.None? && kept <= Elems(cands) ==> Elems(cands) == kept + open)
      && Elems(added) <= open && |Elems(added)| == |added| == Min(places, |open|)
      && forall x, y :: x in Elems(added) && y in open - Elems(added) ==> Less(x, y)
  {
    var open := Open(cands, kept, floor);
    var s := Only(cands, open);
    OnlySorted(cands, open);
    assert Elems(s) == open;
    SortedDistinct(s);
    DistinctCount(s);
    FirstAreLowest(s, places);
  }

  lemma FilledCount(cands: seq<Name>, kept: seq<Name>, n: nat)
    requires Sorted(cands) && Sorted(kept) && Elems(kept) <= Elems(cands) && |kept| < n
    ensures Filled(cands, kept, n) <= Elems(cands) && |Filled(cands, kept, n)| == Min(n, |Elems(cands)|)
  {
    hide Less, Only, Open, Elems;
    SortedDistinct(kept);
    DistinctCount(kept);
    var up := Added(cands, Elems(kept), Some(Highest(kept)), n - |kept|);
    AddedFacts(cands, Elems(kept), Some(Highest(kept)), n - |kept|);
    var low := Added(cands, Elems(kept) + Elems(up), None, n - |kept| - |up|);
    AddedFacts(cands, Elems(kept) + Elems(up), None, n - |kept| - |up|);
    var open := Open(cands, Elems(kept) + Elems(up), None);
    CountParts(Elems(kept), Elems(up), Elems(low), open, n);
  }

  lemma CountParts(kept: set<Name>, up: set<Name>, low: set<Name>, open: set<Name>, n: nat)
    requires kept !! up && (kept + up) !! open && low <= open
    requires |kept| + |up| <= n && |low| == Min(n - |kept| - |up|, |open|)
    ensures kept + up + low <= kept + up + open && |kept + up + low| == Min(n, |kept + up + open|)
  {
    DisjointCount(kept, up);
    DisjointCount(kept + up, low);
    DisjointCount(kept + up, open);
  }

  lemma DisjointCount(a: set<Name>, b: set<Name>)
    requires a !! b
    ensures |a + b| == |a| + |b|
  {
  }

  lemma FilledOrder(cands: seq<Name>, kept: seq<Name>, n: nat)
    requires Sorted(cands) && Sorted(kept) && |kept| < n
    ensures
      var chosen := Filled(cands, kept, n);
      Elems(kept) <= chosen
      && forall x, y :: x in chosen - Elems(kept) && y in Elems(cands) - chosen ==> Before(Elems(kept), x, y)
  {
    hide Less, Only;
    var floor := Some(Highest(kept));
    var up := Added(cands, Elems(kept), floor, n - |kept|);
    AddedFacts(cands, Elems(kept), floor, n - |kept|);
    var low := Added(cands, Elems(kept) + Elems(up), None, n - |kept| - |up|);
    AddedFacts(cands, Elems(kept) + Elems(up), None, n - |kept| - |up|);
    var chosen := Filled(cands, kept, n);
    forall x, y | x in chosen - Elems(kept) && y in Elems(cands) - chosen
      ensures Before(Elems(kept), x, y)
    {
      if x in Elems(up) {
        UpwardFirst(cands, kept, up, n - |kept|, x, y);
      } else {
        NoneAboveLeft(cands, kept, up, n - |kept|, y);
        assert y in Open(cands, Elems(kept) + Elems(up), None);
        assert Less(x, y);
      }
    }
  }

  lemma UpwardFirst(cands: seq<Name>, kept: seq<Name>, up: seq<Name>, places: nat, x: Name, y: Name)
    requires Sorted(cands) && Sorted(kept) && up == Added(cands, Elems(kept), Some(Highest(kept)), places)
    requires x in up && y in cands && y !in kept && y !in up
    ensures Before(Elems(kept), x, y)
  {
    AddedFacts(cands, Elems(kept), Some(Highest(kept)), places);
    var open := Open(cands, Elems(kept), Some(Highest(kept)));
    assert x in Elems(up) && x in open;
    HighestBounds(kept, x);
    HighestBounds(kept, y);
    if Above(Elems(kept), y) { assert y in open - Elems(up); }
  }

  /** If places are left after the upward pass, no candidate above the kept ones is. */
  lemma NoneAboveLeft(cands: seq<Name>, kept: seq<Name>, up: seq<Name>, places: nat, y: Name)
    requires Sorted(cands) && Sorted(kept) && up == Added(cands, Elems(kept), Some(Highest(kept)), places)
    requires |up| < places && y in cands && y !in kept && y !in up
    ensures !Above(Elems(kept), y)
  {
    AddedFacts(cands, Elems(kept), Some(Highest(kept)), places);
    HighestBounds(kept, y);
    var open := Open(cands, Elems(kept), Some(Highest(kept)));
    SubsetCount(Elems(up), open);
  }

  /** Being proper pins the selection down: the code selects the one proper selection. */
  lemma ChosenIffProper(cands: seq<Name>, prev: set<Name>, n: nat, chosen: set<Name>)
    requires Sorted(cands)
    ensures Proper(Elems(cands), prev, n, chosen) <==> chosen == Chosen(cands, prev, n)
  {
    ChosenProper(cands, prev, n);
    if Proper(Elems(cands), prev, n, chosen) {
      ProperUnique(Elems(cands), prev, n, chosen, Chosen(cands, prev, n));
    }
  }

  /** Vacancies are not filled lowest first: with the middle one of three kept, the highest joins it. */
  lemma UpwardBeforeLowest(a: Name, b: Name, c: Name)
    requires Less(a, b) && Less(b, c)
    ensures Chosen([a, b, c], {b}, 2) == {b, c} && a !in Chosen([a, b, c], {b}, 2)
  {
    LessTransitive(a, b, c);
    LessAsymmetric(a, b);
    LessAsymmetric(b, c);
    LessAsymmetric(a, c);
    var cands := {a, b, c};
    assert Elems([a, b, c]) == cands && cands * {b} == {b};
    assert {b, c} - {b} == {c} && cands - {b, c} == {a};
    assert Proper(cands, {b}, 2, {b, c});
    ChosenIffProper([a, b, c], {b}, 2, {b, c});
  }

  lemma ProperUnique(cands: set<Name>, prev: set<Name>, n: nat, a: set<Name>, b: set<Name>)
    requires Proper(cands, prev, n, a) && Proper(cands, prev, n, b)
    ensures a == b
  {
    if a != b {
      Differ(a, b);
      Differ(b, a);
      var x :| x in a - b;
      var y :| y in b - a;
      var kept := cands * prev;
      if |kept| >= n {
        assert Less(x, y) && Less(y, x);
        LessAsymmetric(x, y);
      } else {
        assert Before(kept, x, y) && Before(kept, y, x);
        if Less(x, y) { LessAsymmetric(x, y); }
      }
    }
  }

  lemma Differ(a: set<Name>, b: set<Name>)
    requires |a| == |b| && a != b
    ensures a - b != {}
  {
    if a - b == {} {
      assert a == (a - b) + a * b;
      SubsetCount(a, b);
    }
  }

  /** No selection of that size keeps more of the former members. */
  lemma RetainsTheMost(cands: seq<Name>, prev: set<Name>, n: nat, other: set<Name>)
    requires Sorted(cands) && other <= Elems(cands) && |other| == |Chosen(cands, prev, n)|
    ensures |other * prev| <= |Chosen(cands, prev, n) * prev|
  {
    ChosenProper(cands, prev, n);
    var chosen := Chosen(cands, prev, n);
    var kept := Elems(cands) * prev;
    if |kept| >= n {
      assert chosen * prev == chosen;
      SubsetCount(other * prev, other);
    } else {
      assert chosen * prev == kept;
      SubsetCount(other * prev, kept);
    }
  }

  /** Selected again from the same candidates, a selection reproduces itself. */
  lemma SelectionIsFixpoint(cands: seq<Name>, prev: set<Name>, n: nat)
    requires Sorted(cands)
    ensures Chosen(cands, Chosen(cands, prev, n), n) == Chosen(cands, prev, n)
  {
    var chosen := Chosen(cands, prev, n);
    ChosenProper(cands, prev, n);
    assert Elems(cands) * chosen == chosen;
    assert Proper(Elems(cands), chosen, n, chosen);
    ChosenIffProper(cands, chosen, n, chosen);
  }

  /** As long as the former members are not more than wanted, each that is still a candidate stays. */
  lemma MembersStick(cands: seq<Name>, prev: set<Name>, n: nat, x: Name)
    requires Sorted(cands) && |prev| <= n && x in prev && x in cands
    ensures x in Chosen(cands, prev, n)
  {
    ChosenProper(cands, prev, n);
    var kept := Elems(cands) * prev;
    SubsetCount(kept, prev);
    if |kept| == n {
      SubsetCount(Chosen(cands, prev, n), kept);
      SubsetCount(kept, Elems(cands));
    }
    assert x in kept;
  }

  /** The list the code returns, in terms of its elements. */
  lemma MembersMeaning(cands: seq<Name>, prev: set<Name>, count: Option<int>)
    requires Sorted(cands)
    ensures
      var members := Members(cands, prev, count);
      && Sorted(members) && Elems(members) <= Elems(cands)
      && |members| == (if count.None? then |cands| else Min(Wanted(count.value), |cands|))
      && (count.Some? ==> Proper(Elems(cands), prev, Wanted(count.value), Elems(members)))
  {
    SortedDistinct(cands);
    DistinctCount(cands);
    if count.Some? {
      var chosen := Chosen(cands, prev, Wanted(count.value));
      ChosenProper(cands, prev, Wanted(count.value));
      OnlySorted(cands, chosen);
      SortedDistinct(Only(cands, chosen));
      DistinctCount(Only(cands, chosen));
      assert Elems(Only(cands, chosen)) == chosen;
    }
  }

  lemma MembersFixpoint(cands: seq<Name>, prev: set<Name>, count: Option<int>)
    requires Sorted(cands)
    ensures Members(cands, Elems(Members(cands, prev, count)), count) == Members(cands, prev, count)
  {
    if count.Some? {
      var n := Wanted(count.value);
      var chosen := Chosen(cands, prev, n);
      ChosenProper(cands, prev, n);
      OnlySorted(cands, chosen);
      assert Elems(Only(cands, chosen)) == chosen;
      SelectionIsFixpoint(cands, prev, n);
    }
  }
}
