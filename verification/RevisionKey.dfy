/**
 The text hashed into a workload's revision key: every field is written behind its
 length, so the fields can be read back and different inputs give different texts.
 Characters stand for bytes here, as Go strings are made of bytes.
 */
module RevisionKey {
  import opened Options
  import opened Texts

  // ----- Writing ---------------------------------------------------------------

  function Field(s: string): string {
    Decimal(|s|) + ":" + s
  }

  function Encode(fields: seq<string>): string {
    if fields == [] then "" else Field(fields[0]) + Encode(fields[1..])
  }

  function PreImage(revision: string, run: string, args: seq<string>): string {
    Encode([revision, run] + args)
  }

  /** The key: a prefix and the first twelve characters of the digest. */
  function CompositeRevision(digest: string -> string, revision: string, run: string, args: seq<string>): string
    requires |digest(PreImage(revision, run, args))| >= 12
  {
    "r-" + digest(PreImage(revision, run, args))[..12]
  }

  // ----- Reading back ------------------------------------------------------------

  function Decode(s: string): Option<seq<string>>
    decreases |s|
  {
    if s == "" then Some([])
    else
      var k := IndexOf(s, ':');
      if k == |s| || !Numeral(s[..k]) then None
      else
        var n := Value(s[..k]);
        var body := s[k + 1..];
        if n > |body| then None
        else
          match Decode(body[n..])
          case None => None
          case Some(rest) => Some([body[..n]] + rest)
  }

  lemma DecodeField(f: string, rest: string)
    ensures Decode(Field(f) + rest)
         == (if Decode(rest).None? then None else Some([f] + Decode(rest).value))
  {
    var digits := Decimal(|f|);
    var s := Field(f) + rest;
    var body := f + rest;
    DecimalValue(|f|);
    NumeralHasNo(|f|, ':');
    assert s == digits + [':'] + body;
    IndexAfter(digits, ':', body);
    assert s[..|digits|] == digits && s[|digits| + 1..] == body;
    assert body[..|f|] == f && body[|f|..] == rest;
    assert s != "";
  }

  /** Any list of fields, whatever bytes they hold, is read back from its encoding. */
  lemma {:induction false} DecodeEncode(fields: seq<string>)
    ensures Decode(Encode(fields)) == Some(fields)
    decreases |fields|
  {
    if fields != [] {
      DecodeField(fields[0], Encode(fields[1..]));
      DecodeEncode(fields[1..]);
      assert [fields[0]] + fields[1..] == fields;
    }
  }

  /** Different revisions, run targets or arguments are hashed from different texts. */
  lemma PreImageInjective(r1: string, run1: string, args1: seq<string>, r2: string, run2: string, args2: seq<string>)
    requires PreImage(r1, run1, args1) == PreImage(r2, run2, args2)
    ensures r1 == r2 && run1 == run2 && args1 == args2
  {
    var a, b := [r1, run1] + args1, [r2, run2] + args2;
    DecodeEncode(a);
    DecodeEncode(b);
    assert a == b;
    assert a[0] == r1 && a[1] == run1 && a[2..] == args1;
    assert b[0] == r2 && b[1] == run2 && b[2..] == args2;
  }

  /** Equal keys for different inputs are a collision of the truncated digest, nothing else. */
  lemma EqualKeysCollide(digest: string -> string, r1: string, run1: string, args1: seq<string>,
                         r2: string, run2: string, args2: seq<string>)
    requires forall s :: |digest(s)| >= 12
    requires (r1, run1, args1) != (r2, run2, args2)
    requires CompositeRevision(digest, r1, run1, args1) == CompositeRevision(digest, r2, run2, args2)
    ensures exists s, t :: s != t && digest(s)[..12] == digest(t)[..12]
  {
    var s, t := PreImage(r1, run1, args1), PreImage(r2, run2, args2);
    if s == t { PreImageInjective(r1, run1, args1, r2, run2, args2); }
    var k1, k2 := CompositeRevision(digest, r1, run1, args1), CompositeRevision(digest, r2, run2, args2);
    assert digest(s)[..12] == k1[2..] && digest(t)[..12] == k2[2..];
  }

  predicate IsHex(c: char) {
    '0' <= c <= '9' || 'a' <= c <= 'f'
  }

  predicate IsAlphanumeric(c: char) {
    '0' <= c <= '9' || 'a' <= c <= 'z' || 'A' <= c <= 'Z'
  }

  /** What the API admits as a label value: short, of these characters, an alphanumeric at both ends. */
  predicate IsLabelValue(s: string) {
    && 0 < |s| <= 63 && IsAlphanumeric(s[0]) && IsAlphanumeric(s[|s| - 1])
    && forall c :: c in s ==> IsAlphanumeric(c) || c == '-' || c == '_' || c == '.'
  }

  /** With a hexadecimal digest the key can be used as a label, and it is marked as a revision. */
  lemma KeyIsLabel(digest: string -> string, revision: string, run: string, args: seq<string>)
    requires |digest(PreImage(revision, run, args))| >= 12 && forall c :: c in digest(PreImage(revision, run, args)) ==> IsHex(c)
    ensures var key := CompositeRevision(digest, revision, run, args); IsLabelValue(key) && |key| == 14 && key[..2] == "r-"
  {
    var d, key := digest(PreImage(revision, run, args)), CompositeRevision(digest, revision, run, args);
    assert forall i :: 0 <= i < 12 ==> key[i + 2] == d[i] && d[i] in d;
    forall c | c in key
      ensures IsAlphanumeric(c) || c == '-'
    {
      var i :| 0 <= i < |key| && key[i] == c;
      if i >= 2 { assert c == d[i - 2]; }
    }
    assert key[13] == d[11];
  }
}
