/** The order Go gives to strings, and the one sorted listing of a set of them. */
module Strings {

  predicate Less(a: string, b: string) {
    b != [] && (a == [] || a[0] < b[0] || (a[0] == b[0] && Less(a[1..], b[1..])))
  }

  lemma {:induction false} LessTotal(a: string, b: string)
    ensures a == b || Less(a, b) || Less(b, a)
    ensures !(Less(a, b) && Less(b, a)) && !Less(a, a)
  {
    if a != [] { LessTotal(a[1..], a[1..]); }
    if a != [] && b != [] && a[0] == b[0] {
      LessTotal(a[1..], b[1..]);
      assert a == [a[0]] + a[1..] && b == [b[0]] + b[1..];
    }
  }

  lemma {:induction false} LessTransitive(a: string, b: string, c: string)
    requires Less(a, b) && Less(b, c)
    ensures Less(a, c)
  {
    if a != [] && a[0] == b[0] && b[0] == c[0] { LessTransitive(a[1..], b[1..], c[1..]); }
  }

  predicate Ascending(s: seq<string>) {
    forall i, j :: 0 <= i < j < |s| ==> Less(s[i], s[j])
  }

  /** A set of strings has one ascending listing. */
  lemma {:induction false} AscendingUnique(a: seq<string>, b: seq<string>)
    requires Ascending(a) && Ascending(b)
    requires forall x :: x in a <==> x in b
    ensures a == b
  {
    assert forall i :: 0 <= i < |a| ==> a[i] in b;
    assert forall i :: 0 <= i < |b| ==> b[i] in a;
    if a != [] {
      LessTotal(a[0], b[0]);
      assert a[0] == b[0];
      forall x ensures x in a[1..] <==> x in b[1..] {
        LessTotal(a[0], a[0]);
        assert forall k :: 1 <= k < |a| ==> a[k] != a[0];
        assert forall k :: 1 <= k < |b| ==> b[k] != b[0];
        assert x in a <==> x == a[0] || x in a[1..];
        assert x in b <==> x == b[0] || x in b[1..];
      }
      AscendingUnique(a[1..], b[1..]);
    }
  }

  /** Sorted insertion of a string that is not there yet. */
  function InsertString(s: seq<string>, x: string): (r: seq<string>)
    requires Ascending(s) && x !in s
    ensures Ascending(r) && forall y :: y in r <==> y in s || y == x
  {
    if s == [] then [x]
    else if Less(x, s[0]) then
      BelowAll(x, s);
      [x] + s
    else
      assert s[0] in s;
      LessTotal(x, s[0]);
      assert s == [s[0]] + s[1..];
      var rest := InsertString(s[1..], x);
      assert forall y :: y in s[1..] ==> Less(s[0], y);
      assert forall j :: 0 <= j < |rest| ==> rest[j] in rest;
      [s[0]] + rest
  }

  /** A set of strings has an ascending listing. */
  lemma {:induction false} Listed(s: set<string>) returns (ids: seq<string>)
    ensures Ascending(ids) && forall x :: x in ids <==> x in s
  {
    ids := [];
    var todo := s;
    while todo != {}
      invariant todo <= s && Ascending(ids)
      invariant forall x :: x in ids <==> x in s && x !in todo
      decreases |todo|
    {
      var x :| x in todo;
      todo := todo - {x};
      ids := InsertString(ids, x);
    }
  }

  lemma {:induction false} BelowAll(x: string, s: seq<string>)
    requires Ascending(s) && s != [] && Less(x, s[0])
    ensures forall j :: 0 <= j < |s| ==> Less(x, s[j])
  {
    forall j | 0 <= j < |s| ensures Less(x, s[j]) {
      if j > 0 { LessTransitive(x, s[0], s[j]); }
    }
  }
}
