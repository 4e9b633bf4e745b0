/** Object names, compared as Go compares strings: byte by byte, shorter first on a common prefix. */
module Names {

  type Name = string

  predicate Less(a: Name, b: Name) {
    if b == [] then false
    else if a == [] then true
    else a[0] < b[0] || (a[0] == b[0] && Less(a[1..], b[1..]))
  }

  lemma {:induction false} LessIrreflexive(a: Name)
    ensures !Less(a, a)
  {
    if a != [] { LessIrreflexive(a[1..]); }
  }

  lemma {:induction false} LessTransitive(a: Name, b: Name, c: Name)
    requires Less(a, b) && Less(b, c)
    ensures Less(a, c)
  {
    if a != [] && a[0] == b[0] && b[0] == c[0] { LessTransitive(a[1..], b[1..], c[1..]); }
  }

  lemma {:induction false} LessTotal(a: Name, b: Name)
    ensures a == b || Less(a, b) || Less(b, a)
  {
    if a != [] && b != [] && a[0] == b[0] {
      LessTotal(a[1..], b[1..]);
      assert a == [a[0]] + a[1..] && b == [b[0]] + b[1..];
    }
  }

  lemma LessAsymmetric(a: Name, b: Name)
    requires Less(a, b)
    ensures !Less(b, a) && a != b
  {
    LessIrreflexive(a);
    if Less(b, a) { LessTransitive(a, b, a); }
  }

  /** Behind `k` common characters `a` ends, or has the smaller character. */
  predicate SplitsAt(a: Name, b: Name, k: nat) {
    k <= |a| && k < |b| && a[..k] == b[..k] && (k == |a| || a[k] < b[k])
  }

  /** The order as a dictionary has it: a proper prefix first, else the first differing character decides. */
  ghost predicate Precedes(a: Name, b: Name) {
    exists k :: SplitsAt(a, b, k)
  }

  lemma {:induction false} LessIsDictionary(a: Name, b: Name)
    ensures Less(a, b) <==> Precedes(a, b)
  {
    if a == [] || b == [] || a[0] != b[0] {
      if Less(a, b) { assert SplitsAt(a, b, 0); }
      if k: nat :| SplitsAt(a, b, k) && k > 0 { assert a[..k][0] == b[..k][0]; }
    } else {
      LessIsDictionary(a[1..], b[1..]);
      if k: nat :| SplitsAt(a[1..], b[1..], k) {
        assert a[..k + 1] == [a[0]] + a[1..][..k] && b[..k + 1] == [b[0]] + b[1..][..k];
        assert SplitsAt(a, b, k + 1);
      }
      if k: nat :| SplitsAt(a, b, k) {
        assert k > 0;
        assert a[1..][..k - 1] == a[..k][1..] && b[1..][..k - 1] == b[..k][1..];
        assert SplitsAt(a[1..], b[1..], k - 1);
      }
    }
  }
}
