/** Alias resolution: the index folded from the active triples and the walk through it. */
module Alias {
  import opened Common
  import opened Subgraph

  const SAME_AS := "sameAs"
  const ALIAS := "alias"

  type Index = map<string, string>

  // ---------------------------------------------------------------- the index

  /** The mapping a triple proposes: none for other predicates, empty names and self-mappings. */
  predicate Proposes(t: Triple, from: string, to: string) {
    && from != "" && to != "" && from != to
    && ((t.p == SAME_AS && t.s == from && t.o == to) || (t.p == ALIAS && t.o == from && t.s == to))
  }

  /** Which way a triple maps: `a sameAs b` maps a to b, and `a alias b`, b being another name of a, maps
      b to a. */
  lemma {:induction false} ProposedBy(t: Triple, from: string, to: string)
    ensures Proposes(t, from, to) <==>
            && t.s != "" && t.o != "" && t.s != t.o
            && ((t.p == "sameAs" && from == t.s && to == t.o) || (t.p == "alias" && from == t.o && to == t.s))
  {
  }

  /** Position `i` holds the first proposal for `from`. */
  ghost predicate FirstProposal(triples: seq<Triple>, from: string, to: string, i: nat) {
    && i < |triples| && Proposes(triples[i], from, to)
    && forall j, other :: 0 <= j < i ==> !Proposes(triples[j], from, other)
  }

  method BuildIndex(triples: seq<Triple>) returns (idx: Index)
    ensures forall from :: from in idx ==> exists i: nat :: FirstProposal(triples, from, idx[from], i)
    ensures forall from, to, i: nat :: FirstProposal(triples, from, to, i) ==> from in idx && idx[from] == to
  {
    idx := map[];
    for n := 0 to |triples|
      invariant forall from :: from !in idx ==> forall j, to :: 0 <= j < n ==> !Proposes(triples[j], from, to)
      invariant forall from :: from in idx ==> exists i: nat :: i < n && FirstProposal(triples, from, idx[from], i)
    {
      var t := triples[n];
      var from, to := if t.p == SAME_AS then t.s else t.o, if t.p == SAME_AS then t.o else t.s;
      ghost var before := idx;
      if t.p == SAME_AS || t.p == ALIAS {
        if from != "" && to != "" && from != to && from !in idx {
          idx := idx[from := to];
          assert FirstProposal(triples, from, to, n);
        }
      }
      forall f | f in idx ensures exists i: nat :: i < n + 1 && FirstProposal(triples, f, idx[f], i) {
        if f in before {
          var i: nat :| i < n && FirstProposal(triples, f, before[f], i);
          assert FirstProposal(triples, f, idx[f], i);
        }
      }
    }
    forall from, to, i: nat | FirstProposal(triples, from, to, i) ensures from in idx && idx[from] == to {
      assert from in idx;
      var j: nat :| FirstProposal(triples, from, idx[from], j);
    }
  }

  // ---------------------------------------------------------------- the walk

  /** The name reached after `k` steps; a name with no mapping is stepped to itself. */
  function At(idx: Index, name: string, k: nat): string {
    if k == 0 then name
    else
      var here := At(idx, name, k - 1);
      if here in idx then idx[here] else here
  }

  /** The first `k` names of the walk all have a mapping and are all different. */
  ghost predicate Distinct(idx: Index, name: string, k: nat) {
    && (forall i: nat :: i < k ==> At(idx, name, i) in idx)
    && forall i: nat, j: nat :: i < j < k ==> At(idx, name, i) != At(idx, name, j)
  }

  /** The walk of `k` distinct names ends at `end`: a name with no mapping, or the name at which
      the walk re-enters itself. */
  ghost predicate Ends(idx: Index, name: string, k: nat, end: string) {
    && Distinct(idx, name, k) && At(idx, name, k) == end
    && (end !in idx || exists i: nat :: i < k && At(idx, name, i) == end)
  }

  /** The names walked so far, and the name they lead to. */
  ghost predicate Trail(idx: Index, name: string, trail: seq<string>, end: string) {
    && (forall i: nat :: i < |trail| ==> trail[i] == At(idx, name, i) && trail[i] in idx)
    && (forall i, j :: 0 <= i < j < |trail| ==> trail[i] != trail[j])
    && end == At(idx, name, |trail|)
  }

  lemma {:induction false} TrailGrows(idx: Index, name: string, trail: seq<string>, end: string)
    requires Trail(idx, name, trail, end) && end in idx && end !in trail
    ensures Trail(idx, name, trail + [end], idx[end])
  {
  }

  lemma {:induction false} TrailEnds(idx: Index, name: string, trail: seq<string>, end: string)
    requires Trail(idx, name, trail, end) && (end !in idx || end in trail)
    ensures Ends(idx, name, |trail|, end)
  {
    forall i: nat, j: nat | i < j < |trail| ensures At(idx, name, i) != At(idx, name, j) {
      assert trail[i] != trail[j];
    }
    if end in idx {
      var i: nat :| i < |trail| && trail[i] == end;
      assert At(idx, name, i) == end;
    }
  }

  /** The walk stops within one step more than the index has entries, whatever cycles it holds. */
  method Canonical(idx: Index, name: string) returns (end: string)
    ensures exists k: nat :: k <= |idx| && Ends(idx, name, k, end)
  {
    var seen: set<string> := {};
    end := name;
    ghost var trail: seq<string> := [];
    while end in idx && end !in seen
      invariant Trail(idx, name, trail, end)
      invariant seen <= idx.Keys && |seen| == |trail|
      invariant forall v :: v in seen <==> v in trail
      decreases idx.Keys - seen
    {
      TrailGrows(idx, name, trail, end);
      seen := seen + {end};
      trail := trail + [end];
      end := idx[end];
    }
    Fewer(seen, idx.Keys);
    TrailEnds(idx, name, trail, end);
  }

  // ---------------------------------------------------------------- determinism and idempotence

  /** There is one answer: the number of distinct names and the end are determined. */
  lemma {:induction false} EndsUnique(idx: Index, name: string, k: nat, end: string, l: nat, other: string)
    requires Ends(idx, name, k, end) && Ends(idx, name, l, other)
    ensures k == l && end == other
  {
    if k < l { EndsNotBeyond(idx, name, k, end, l); }
    if l < k { EndsNotBeyond(idx, name, l, other, k); }
  }

  lemma {:induction false} EndsNotBeyond(idx: Index, name: string, k: nat, end: string, l: nat)
    requires Ends(idx, name, k, end) && k < l
    ensures !Distinct(idx, name, l)
  {
    if end in idx {
      var i: nat :| i < k && At(idx, name, i) == end;
      assert i < k < l && At(idx, name, i) == At(idx, name, k);
    }
  }

  /** Walking from the `i`-th name is the rest of the walk. */
  lemma {:induction false} AtShift(idx: Index, name: string, i: nat, k: nat)
    ensures At(idx, At(idx, name, i), k) == At(idx, name, i + k)
    decreases k
  {
    if k > 0 { AtShift(idx, name, i, k - 1); }
  }

  /** Resolving an answer again changes nothing: `Canonical(Canonical(x)) == Canonical(x)`. */
  lemma {:induction false} CanonicalIdempotent(idx: Index, name: string, k: nat, end: string, l: nat, again: string)
    requires Ends(idx, name, k, end) && Ends(idx, end, l, again)
    ensures again == end
  {
    if end !in idx {
      assert Ends(idx, end, 0, end);
      EndsUnique(idx, end, 0, end, l, again);
    } else {
      var i: nat :| i < k && At(idx, name, i) == end;
      var n := k - i;
      forall a: nat ensures At(idx, end, a) == At(idx, name, i + a) { AtShift(idx, name, i, a); }
      assert At(idx, end, 0) == end;
      assert Ends(idx, end, n, end);
      EndsUnique(idx, end, n, end, l, again);
    }
  }

  /** An answer that still has a mapping lies on a cycle of the index. */
  lemma {:induction false} AnswerOnCycle(idx: Index, name: string, k: nat, end: string)
    requires Ends(idx, name, k, end) && end in idx
    ensures exists n: nat :: 0 < n <= k && At(idx, end, n) == end
  {
    var i: nat :| i < k && At(idx, name, i) == end;
    AtShift(idx, name, i, k - i);
    assert 0 < k - i <= k && At(idx, end, k - i) == end;
  }
}
