/** Sorted lists of names and the sets they stand for. */
module NameSets {
  import opened Names

  predicate Sorted(s: seq<Name>) {
    forall i, j :: 0 <= i < j < |s| ==> Less(s[i], s[j])
  }

  predicate Distinct(s: seq<Name>) {
    forall i, j :: 0 <= i < j < |s| ==> s[i] != s[j]
  }

  function Elems(s: seq<Name>): set<Name> {
    set x | x in s
  }

  function Min(a: int, b: int): int {
    if a < b then a else b
  }

  lemma SortedDistinct(s: seq<Name>)
    requires Sorted(s)
    ensures Distinct(s)
  {
    forall i, j | 0 <= i < j < |s|
      ensures s[i] != s[j]
    {
      LessAsymmetric(s[i], s[j]);
    }
  }

  lemma {:induction false} DistinctCount(s: seq<Name>)
    requires Distinct(s)
    ensures |Elems(s)| == |s|
  {
    if s == [] {
      assert Elems(s) == {};
    } else {
      var front, last := s[..|s| - 1], s[|s| - 1];
      DistinctCount(front);
      assert Elems(s) == Elems(front) + {last};
      assert last !in Elems(front);
    }
  }

  lemma ElemsConcat(a: seq<Name>, b: seq<Name>)
    ensures Elems(a + b) == Elems(a) + Elems(b)
  {
  }

  lemma ElemsSnoc(s: seq<Name>, x: Name)
    ensures Elems(s + [x]) == Elems(s) + {x}
  {
  }

  // ----- Sorting -----------------------------------------------------------------

  function Insert(x: Name, s: seq<Name>): (r: seq<Name>)
    ensures multiset(r) == multiset(s) + multiset{x}
  {
    if s == [] then [x]
    else if Less(s[0], x) then
      assert s == [s[0]] + s[1..];
      [s[0]] + Insert(x, s[1..])
    else [x] + s
  }

  /** The library sort: a permutation of its argument. */
  function Sort(s: seq<Name>): (r: seq<Name>)
    ensures multiset(r) == multiset(s)
  {
    if s == [] then []
    else
      assert s == [s[0]] + s[1..];
      Insert(s[0], Sort(s[1..]))
  }

  lemma {:induction false} InsertSorted(x: Name, s: seq<Name>)
    requires Sorted(s) && x !in s
    ensures Sorted(Insert(x, s))
  {
    if s != [] {
      LessTotal(x, s[0]);
      assert s[0] in s;
      if Less(s[0], x) {
        InsertSorted(x, s[1..]);
        var r := Insert(x, s[1..]);
        forall k | 0 <= k < |r|
          ensures Less(s[0], r[k])
        {
          assert r[k] in multiset(r);
          assert r[k] == x || r[k] in s[1..];
        }
      } else {
        forall k | 0 <= k < |s|
          ensures Less(x, s[k])
        {
          if k > 0 { LessTransitive(x, s[0], s[k]); }
        }
      }
    }
  }

  lemma SameElements(s: seq<Name>, r: seq<Name>)
    requires multiset(s) == multiset(r)
    ensures |s| == |r| && Elems(s) == Elems(r)
  {
    assert |s| == |multiset(s)| == |multiset(r)| == |r|;
    forall x
      ensures x in s <==> x in r
    {
      assert x in s <==> x in multiset(s);
      assert x in r <==> x in multiset(r);
    }
  }

  lemma {:induction false} SortSorts(s: seq<Name>)
    requires Distinct(s)
    ensures Sorted(Sort(s)) && Elems(Sort(s)) == Elems(s) && |Sort(s)| == |s|
    decreases |s|
  {
    if s != [] {
      SortSorts(s[1..]);
      assert s[0] !in s[1..];
      assert s[0] !in Elems(Sort(s[1..]));
      InsertSorted(s[0], Sort(s[1..]));
    }
    SameElements(s, Sort(s));
  }

  /** A sorted list is determined by its elements. */
  lemma {:induction false} SortedUnique(s: seq<Name>, t: seq<Name>)
    requires Sorted(s) && Sorted(t) && Elems(s) == Elems(t)
    ensures s == t
    decreases |s|
  {
    SortedDistinct(s);
    SortedDistinct(t);
    DistinctCount(s);
    DistinctCount(t);
    if s != [] {
      HeadIsLeast(s, t);
      HeadIsLeast(t, s);
      if s[0] != t[0] { LessAsymmetric(s[0], t[0]); }
      assert Elems(s[1..]) == Elems(s) - {s[0]};
      assert Elems(t[1..]) == Elems(t) - {t[0]};
      SortedUnique(s[1..], t[1..]);
      assert s == [s[0]] + s[1..] && t == [t[0]] + t[1..];
    }
  }

  lemma HeadIsLeast(s: seq<Name>, t: seq<Name>)
    requires Sorted(s) && s != [] && t != [] && Elems(s) == Elems(t)
    ensures s[0] == t[0] || Less(s[0], t[0])
  {
    assert t[0] in Elems(t);
    var k :| 0 <= k < |s| && s[k] == t[0];
  }

  // ----- Filtering ------------------------------------------------------------------

  /** The members of `s` that lie in `keep`, in order. */
  function Only(s: seq<Name>, keep: set<Name>): (r: seq<Name>)
    ensures |r| <= |s| && forall x :: x in r <==> x in s && x in keep
  {
    if s == [] then []
    else
      var front, last := s[..|s| - 1], s[|s| - 1];
      assert s == front + [last];
      if last in keep then Only(front, keep) + [last] else Only(front, keep)
  }

  lemma {:induction false} OnlySorted(s: seq<Name>, keep: set<Name>)
    requires Sorted(s)
    ensures Sorted(Only(s, keep)) && Elems(Only(s, keep)) == Elems(s) * keep
  {
    if s != [] {
      var front, last := s[..|s| - 1], s[|s| - 1];
      OnlySorted(front, keep);
      var r := Only(front, keep);
      forall k | 0 <= k < |r|
        ensures Less(r[k], last)
      {
        assert r[k] in front;
      }
    }
  }

  lemma {:induction false} OnlyPrefix(s: seq<Name>, keep: set<Name>, i: nat)
    requires i <= |s|
    ensures
      var part, all := Only(s[..i], keep), Only(s, keep);
      |part| <= |all| && part == all[..|part|]
    decreases |s|
  {
    if i == |s| {
      assert s[..i] == s;
    } else {
      var front := s[..|s| - 1];
      OnlyPrefix(front, keep, i);
      assert front[..i] == s[..i];
    }
  }

  /** The first `k` of them, or all if there are fewer. */
  function First(s: seq<Name>, k: int): seq<Name>
    requires k >= 0
  {
    s[..Min(k, |s|)]
  }
}
