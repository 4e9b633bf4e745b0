/** Replacing or appending an element of a list by name, and what that leaves alone. */
module Upserts {
  import opened Options

  function Upsert<T>(s: seq<T>, key: T -> string, x: T): seq<T> {
    if s == [] then [x]
    else if key(s[0]) == key(x) then [x] + s[1..]
    else [s[0]] + Upsert(s[1..], key, x)
  }

  function UpsertAll<T>(s: seq<T>, key: T -> string, xs: seq<T>): seq<T> {
    if xs == [] then s else Upsert(UpsertAll(s, key, xs[..|xs| - 1]), key, xs[|xs| - 1])
  }

  /** The first element of a name. */
  function Find<T>(s: seq<T>, key: T -> string, name: string): Option<T> {
    if s == [] then None
    else if key(s[0]) == name then Some(s[0])
    else Find(s[1..], key, name)
  }

  /** The elements whose names are not among `names`, in order. */
  function Without<T>(s: seq<T>, key: T -> string, names: set<string>): seq<T> {
    if s == [] then []
    else (if key(s[0]) in names then [] else [s[0]]) + Without(s[1..], key, names)
  }

  /** Where a linear search for the name stops. */
  lemma {:induction false} UpsertAt<T>(s: seq<T>, key: T -> string, x: T, i: nat)
    requires i <= |s| && forall j :: 0 <= j < i ==> key(s[j]) != key(x)
    ensures i < |s| && key(s[i]) == key(x) ==> Upsert(s, key, x) == s[i := x]
    ensures i == |s| ==> Upsert(s, key, x) == s + [x]
  {
    if i > 0 {
      UpsertAt(s[1..], key, x, i - 1);
      if i < |s| && key(s[i]) == key(x) { assert [s[0]] + s[1..][i - 1 := x] == s[i := x]; }
      if i == |s| { assert [s[0]] + (s[1..] + [x]) == s + [x]; }
    } else if s != [] {
      assert [x] + s[1..] == s[0 := x];
    }
  }

  lemma {:induction false} FindAt<T>(s: seq<T>, key: T -> string, name: string, i: nat)
    requires i <= |s| && forall j :: 0 <= j < i ==> key(s[j]) != name
    ensures i < |s| && key(s[i]) == name ==> Find(s, key, name) == Some(s[i])
    ensures i == |s| ==> Find(s, key, name) == None
  {
    if i > 0 { FindAt(s[1..], key, name, i - 1); }
  }

  lemma {:induction false} FindUpsert<T>(s: seq<T>, key: T -> string, x: T, name: string)
    ensures Find(Upsert(s, key, x), key, name) == if name == key(x) then Some(x) else Find(s, key, name)
  {
    if s == [] {
      assert [x][1..] == [];
    } else if key(s[0]) == key(x) {
      assert ([x] + s[1..])[1..] == s[1..];
    } else {
      var rest := Upsert(s[1..], key, x);
      assert ([s[0]] + rest)[1..] == rest;
      FindUpsert(s[1..], key, x, name);
    }
  }

  /** An element found under its own name is put back where it is. */
  lemma {:induction false} UpsertPresent<T>(s: seq<T>, key: T -> string, x: T)
    requires Find(s, key, key(x)) == Some(x)
    ensures Upsert(s, key, x) == s
  {
    if key(s[0]) == key(x) {
      assert [x] + s[1..] == s;
    } else {
      UpsertPresent(s[1..], key, x);
      assert [s[0]] + s[1..] == s;
    }
  }

  lemma {:induction false} UpsertLeavesOthers<T>(s: seq<T>, key: T -> string, x: T, names: set<string>)
    requires key(x) in names
    ensures Without(Upsert(s, key, x), key, names) == Without(s, key, names)
  {
    if s == [] {
      assert [x][1..] == [];
    } else if key(s[0]) == key(x) {
      assert ([x] + s[1..])[1..] == s[1..];
    } else {
      var rest := Upsert(s[1..], key, x);
      assert ([s[0]] + rest)[1..] == rest;
      UpsertLeavesOthers(s[1..], key, x, names);
    }
  }

  function Keys<T>(s: seq<T>, key: T -> string): set<string> {
    set i | 0 <= i < |s| :: key(s[i])
  }

  predicate DistinctKeys<T>(s: seq<T>, key: T -> string) {
    forall i, j :: 0 <= i < j < |s| ==> key(s[i]) != key(s[j])
  }

  lemma {:induction false} AllLeaveOthers<T>(s: seq<T>, key: T -> string, xs: seq<T>, names: set<string>)
    requires forall i :: 0 <= i < |xs| ==> key(xs[i]) in names
    ensures Without(UpsertAll(s, key, xs), key, names) == Without(s, key, names)
  {
    if xs != [] {
      AllLeaveOthers(s, key, xs[..|xs| - 1], names);
      UpsertLeavesOthers(UpsertAll(s, key, xs[..|xs| - 1]), key, xs[|xs| - 1], names);
    }
  }

  lemma {:induction false} AllPresent<T>(s: seq<T>, key: T -> string, xs: seq<T>)
    requires DistinctKeys(xs, key)
    ensures forall i :: 0 <= i < |xs| ==> Find(UpsertAll(s, key, xs), key, key(xs[i])) == Some(xs[i])
  {
    if xs != [] {
      var front, last := xs[..|xs| - 1], xs[|xs| - 1];
      AllPresent(s, key, front);
      forall i | 0 <= i < |xs|
        ensures Find(UpsertAll(s, key, xs), key, key(xs[i])) == Some(xs[i])
      {
        FindUpsert(UpsertAll(s, key, front), key, last, key(xs[i]));
      }
    }
  }

  lemma {:induction false} PresentStays<T>(s: seq<T>, key: T -> string, xs: seq<T>)
    requires forall i :: 0 <= i < |xs| ==> Find(s, key, key(xs[i])) == Some(xs[i])
    ensures UpsertAll(s, key, xs) == s
  {
    if xs != [] {
      PresentStays(s, key, xs[..|xs| - 1]);
      UpsertPresent(s, key, xs[|xs| - 1]);
    }
  }

  /** Done twice it is as if done once, also where names repeat in the list itself. */
  lemma UpsertAllIdempotent<T>(s: seq<T>, key: T -> string, xs: seq<T>)
    requires DistinctKeys(xs, key)
    ensures UpsertAll(UpsertAll(s, key, xs), key, xs) == UpsertAll(s, key, xs)
  {
    AllPresent(s, key, xs);
    PresentStays(UpsertAll(s, key, xs), key, xs);
  }
}
