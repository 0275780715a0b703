/** Replicas exchanging deltas: what every run of the network keeps, and when replicas agree. */
module KgSync {
  import opened Strings
  import opened KgLog
  import KgStore

  /** What a reader of the active set learns, ignoring each replica's own chain fields. */
  ghost function View(recs: seq<Record>): map<string, Fact> {
    map id | id in Live(recs) :: LastAssert(recs, id).fact
  }

  /** The view is what the active list shows: the same ids, each with the same content. */
  lemma {:induction false} ActiveShowsView(recs: seq<Record>)
    ensures View(recs).Keys == set r | r in Active(recs) :: r.id
    ensures forall r :: r in Active(recs) ==> View(recs)[r.id] == r.fact
  {
    ActiveExact(recs);
    forall id | id in Live(recs) ensures id in (set r | r in Active(recs) :: r.id) {
      assert LastAssert(recs, id) in Active(recs);
    }
  }

  // ---------------------------------------------------------------- Merge

  function Flatten(logs: seq<seq<Record>>): seq<Record> {
    if logs == [] then [] else Flatten(logs[..|logs| - 1]) + logs[|logs| - 1]
  }

  lemma {:induction false} FlattenMembers(logs: seq<seq<Record>>)
    ensures forall r :: r in Flatten(logs) <==> exists i :: 0 <= i < |logs| && r in logs[i]
  {
    if logs != [] {
      var n := |logs| - 1;
      FlattenMembers(logs[..n]);
      forall r ensures r in Flatten(logs) <==> exists i :: 0 <= i < |logs| && r in logs[i] {
        if r in Flatten(logs[..n]) {
          var i :| 0 <= i < n && r in logs[..n][i];
          assert r in logs[i];
        }
        if i :| 0 <= i < |logs| && r in logs[i] {
          assert i < n ==> r in logs[..n][i];
        }
      }
    }
  }

  predicate SortedById(out: seq<Record>) {
    forall i, j :: 0 <= i < j < |out| ==> Less(out[i].id, out[j].id)
  }

  /** The converged set: sorted by id, one record for each id asserted by some replica and
      deleted by none. */
  ghost predicate IsMerge(logs: seq<seq<Record>>, out: seq<Record>) {
    && SortedById(out)
    && forall r :: r in out <==> r.id in Live(Flatten(logs)) && r == LastAssert(Flatten(logs), r.id)
  }

  method Merge(logs: seq<seq<Record>>) returns (out: seq<Record>)
    ensures IsMerge(logs, out)
  {
    var deleted: set<string>, asserts: map<string, Record> := {}, map[];
    ghost var seen: seq<Record> := [];
    for i := 0 to |logs|
      invariant seen == Flatten(logs[..i])
      invariant Folded(seen, deleted, asserts)
    {
      ghost var start := seen;
      for j := 0 to |logs[i]|
        invariant seen == start + logs[i][..j]
        invariant Folded(seen, deleted, asserts)
      {
        var r := logs[i][j];
        FoldedSnoc(seen, deleted, asserts, r);
        if r.op == DELETE {
          deleted := deleted + {r.id};
        } else if r.op == ASSERT {
          asserts := asserts[r.id := r];
        }
        seen := seen + [r];
      }
      assert logs[..i + 1][..i] == logs[..i];
    }
    assert logs[..|logs|] == logs;
    out := SortedSurvivors(asserts, deleted);
  }

  method SortedSurvivors(asserts: map<string, Record>, deleted: set<string>) returns (out: seq<Record>)
    requires forall id :: id in asserts ==> asserts[id].id == id
    ensures SortedById(out)
    ensures forall r :: r in out <==> r.id in asserts && r.id !in deleted && r == asserts[r.id]
  {
    var ids := [];
    var todo := asserts.Keys;
    while todo != {}
      invariant todo <= asserts.Keys
      invariant Ascending(ids)
      invariant forall id :: id in ids <==> id in asserts && id !in todo && id !in deleted
      decreases |todo|
    {
      var id :| id in todo;
      todo := todo - {id};
      if id !in deleted { ids := InsertString(ids, id); }
    }
    out := Picked(asserts, ids);
  }

  /** The records of the given ids, in that order. */
  function Picked(asserts: map<string, Record>, ids: seq<string>): (out: seq<Record>)
    requires forall id :: id in ids ==> id in asserts && asserts[id].id == id
    ensures |out| == |ids| && forall i :: 0 <= i < |ids| ==> out[i] == asserts[ids[i]]
    ensures forall r :: r in out <==> r.id in ids && r == asserts[r.id]
  {
    var out := seq(|ids|, i requires 0 <= i < |ids| => asserts[ids[i]]);
    assert forall i :: 0 <= i < |ids| ==> out[i].id == ids[i];
    out
  }

  ghost predicate Consistent(recs: seq<Record>) {
    forall r, s :: r in recs && s in recs && r.op == ASSERT && s.op == ASSERT && r.id == s.id ==> r.fact == s.fact
  }

  function Ids(out: seq<Record>): seq<string> {
    seq(|out|, i requires 0 <= i < |out| => out[i].id)
  }

  function Facts(out: seq<Record>): seq<Fact> {
    seq(|out|, i requires 0 <= i < |out| => out[i].fact)
  }

  ghost predicate SameRecords(logs: seq<seq<Record>>, other: seq<seq<Record>>) {
    forall r :: r in Flatten(logs) <==> r in Flatten(other)
  }

  /** No live id was asserted with two contents. */
  ghost predicate OneContent(recs: seq<Record>) {
    forall r, s :: r in recs && s in recs && r.op == ASSERT && s.op == ASSERT && r.id == s.id && r.id in Live(recs) ==>
                   r.fact == s.fact
  }

  /** Merging is commutative, associative and idempotent in the ids it lists: they depend on which
      records the logs hold between them, not on the order, grouping or repetition of the logs.
      So do the contents, if no live id has two. */
  lemma {:induction false} MergeOrderInsensitive(logs: seq<seq<Record>>, other: seq<seq<Record>>, a: seq<Record>,
                                                 b: seq<Record>)
    requires IsMerge(logs, a) && IsMerge(other, b) && SameRecords(logs, other)
    ensures Ids(a) == Ids(b)
    ensures OneContent(Flatten(logs)) ==> Facts(a) == Facts(b)
  {
    var f, g := Flatten(logs), Flatten(other);
    assert Asserted(f) == Asserted(g) && Deleted(f) == Deleted(g);
    MergeIds(logs, a);
    MergeIds(other, b);
    AscendingUnique(Ids(a), Ids(b));
    if OneContent(f) {
      forall i | 0 <= i < |a| ensures a[i].fact == b[i].fact {
        assert a[i] in a && b[i] in b;
        assert Ids(a)[i] == Ids(b)[i];
      }
    }
  }

  ghost predicate OrderFree(logs: seq<seq<Record>>) {
    forall other, a, b :: SameRecords(logs, other) && IsMerge(logs, a) && IsMerge(other, b) ==> Facts(a) == Facts(b)
  }

  /** The contents of a merge are free of the order of the logs exactly when no live id has two. */
  lemma {:induction false} OrderFreeIff(logs: seq<seq<Record>>)
    ensures OrderFree(logs) <==> OneContent(Flatten(logs))
  {
    if OneContent(Flatten(logs)) {
      forall other, a, b | SameRecords(logs, other) && IsMerge(logs, a) && IsMerge(other, b)
        ensures Facts(a) == Facts(b)
      {
        MergeOrderInsensitive(logs, other, a, b);
      }
    } else {
      var f := Flatten(logs);
      var r, s :| r in f && s in f && r.op == ASSERT && s.op == ASSERT && r.id == s.id && r.id in Live(f)
          && r.fact != s.fact;
      LastWins(logs, if LastAssert(f, r.id).fact == r.fact then s else r);
    }
  }

  /** Repeating an assertion at the end makes its content the merged one. */
  lemma {:induction false} LastWins(logs: seq<seq<Record>>, r: Record)
    requires r in Flatten(logs) && r.op == ASSERT && r.id in Live(Flatten(logs))
    requires LastAssert(Flatten(logs), r.id).fact != r.fact
    ensures !OrderFree(logs)
  {
    var other := [Flatten(logs) + [r]];
    Repeated(logs, r);
    var a := MergeExists(logs);
    var b := MergeExists(other);
    MergeOrderInsensitive(logs, other, a, b);
    FactAt(logs, a, r.id);
    FactAt(other, b, r.id);
    var i :| 0 <= i < |a| && Ids(a)[i] == r.id;
    assert Ids(b)[i] == r.id;
    assert Facts(a)[i] != Facts(b)[i];
  }

  lemma {:induction false} Repeated(logs: seq<seq<Record>>, r: Record)
    requires r in Flatten(logs) && r.op == ASSERT && r.id in Live(Flatten(logs))
    ensures var other := [Flatten(logs) + [r]];
            SameRecords(logs, other) && r.id in Live(Flatten(other)) && LastAssert(Flatten(other), r.id) == r
  {
    var f := Flatten(logs);
    var other := [f + [r]];
    assert other[..0] == [];
    assert Flatten(other) == f + [r];
    AssertedSnoc(f, r);
    LastAssertsSnoc(f, r);
  }

  /** A live id is listed with the content of its last assertion. */
  lemma {:induction false} FactAt(logs: seq<seq<Record>>, out: seq<Record>, id: string)
    requires IsMerge(logs, out) && id in Live(Flatten(logs))
    ensures id in Ids(out)
    ensures forall i :: 0 <= i < |out| && Ids(out)[i] == id ==> Facts(out)[i] == LastAssert(Flatten(logs), id).fact
  {
    MergeIds(logs, out);
    forall i | 0 <= i < |out| && Ids(out)[i] == id ensures Facts(out)[i] == LastAssert(Flatten(logs), id).fact {
      assert out[i] in out;
    }
  }

  lemma {:induction false} MergeExists(logs: seq<seq<Record>>) returns (out: seq<Record>)
    ensures IsMerge(logs, out)
  {
    var f := Flatten(logs);
    var ids := Listed(Live(f));
    out := Picked(map id | id in Live(f) :: LastAssert(f, id), ids);
  }

  lemma {:induction false} MergeIds(logs: seq<seq<Record>>, out: seq<Record>)
    requires IsMerge(logs, out)
    ensures Ascending(Ids(out))
    ensures forall id :: id in Ids(out) <==> id in Live(Flatten(logs))
  {
    forall id ensures id in Ids(out) <==> id in Live(Flatten(logs)) {
      if id in Ids(out) {
        var i :| 0 <= i < |out| && Ids(out)[i] == id;
        assert out[i] in out;
      }
      if id in Live(Flatten(logs)) {
        var r := LastAssert(Flatten(logs), id);
        assert r in out;
        var i :| 0 <= i < |out| && out[i] == r;
        assert Ids(out)[i] == id;
      }
    }
  }

  /** The merged list and the view of the joined logs are the same knowledge. */
  lemma {:induction false} MergeIsView(logs: seq<seq<Record>>, out: seq<Record>)
    requires IsMerge(logs, out)
    ensures View(Flatten(logs)).Keys == set r | r in out :: r.id
    ensures forall r :: r in out ==> View(Flatten(logs))[r.id] == r.fact
  {
    forall id | id in Live(Flatten(logs)) ensures id in (set r | r in out :: r.id) {
      assert LastAssert(Flatten(logs), id) in out;
    }
  }

  // ---------------------------------------------------------------- a network of replicas

  /** The logs of a network's replicas, and the replicas themselves: memory and file. */
  type Net = seq<seq<Record>>
  type Cluster = seq<Mirror>

  function Mems(net: Cluster): Net {
    seq(|net|, i requires 0 <= i < |net| => net[i].recs)
  }

  datatype Step =
    | AssertAt(at: nat, id: string, fact: Fact, io: Io)
    | DeleteAt(at: nat, id: string, peer: string, io: Io)
    | SyncFrom(at: nat, from: nat, since: int, ios: nat -> Io)
    | Restart(at: nat)

  function AssertOf(s: Step): Attempt
    requires s.AssertAt?
  {
    Attempt(ASSERT, s.id, s.fact, s.io)
  }

  function DeleteOf(s: Step): Attempt
    requires s.DeleteAt?
  {
    Attempt(DELETE, s.id, KgStore.Tombstone(s.peer), s.io)
  }

  predicate Complete(f: Fact) {
    f.s != "" && f.p != "" && f.o != ""
  }

  function Next(h: HashFn, net: Cluster, s: Step): Cluster {
    if s.at >= |net| then net
    else
      match s
      case AssertAt(at, _, fact, _) =>
        if Complete(fact) then net[at := AppendOnce(h, net[at], AssertOf(s))] else net
      case DeleteAt(at, _, _, _) => net[at := AppendOnce(h, net[at], DeleteOf(s))]
      case SyncFrom(at, from, since, ios) =>
        if from < |net| then net[at := Pulled(h, net[at], DeltaSince(net[from].recs, since), ios, 0)] else net
      case Restart(at) => net[at := Mirror(net[at].disk, net[at].disk)]
  }

  /** An assertion that is written is appended if and only if it has a subject, a predicate and an object. */
  lemma {:induction false} AssertTakesIff(h: HashFn, net: Cluster, s: Step)
    requires s.AssertAt? && s.at < |net| && s.io.write == Stored
    ensures Next(h, net, s)[s.at].recs ==
            if s.fact.s != "" && s.fact.p != "" && s.fact.o != ""
            then net[s.at].recs + [Stamp(h, net[s.at].recs, ASSERT, s.id, s.fact, s.io.time)] else net[s.at].recs
  {
  }

  /** Ids are drawn at random: non-empty and never asserted before, in memory or on file, anywhere. */
  ghost predicate Fresh(net: Cluster, s: Step) {
    s.AssertAt? ==> s.id != "" && forall i :: 0 <= i < |net| ==> s.id !in Asserted(net[i].disk)
  }

  ghost predicate Reaches(h: HashFn, start: Cluster, steps: seq<Step>, end: Cluster)
    decreases |steps|
  {
    if steps == [] then start == end
    else Fresh(start, steps[0]) && Reaches(h, Next(h, start, steps[0]), steps[1..], end)
  }

  predicate Sound(r: Record) {
    (r.op == ASSERT || r.op == DELETE) && (r.op == ASSERT ==> r.id != "")
  }

  ghost predicate Agree(a: seq<Record>, b: seq<Record>) {
    forall r, s :: r in a && s in b && r.op == ASSERT && s.op == ASSERT && r.id == s.id ==> r.fact == s.fact
  }

  /** Only the two operations, and one content for each id asserted anywhere. */
  ghost predicate Agreeing(net: Net) {
    && (forall i :: 0 <= i < |net| ==> forall r :: r in net[i] ==> Sound(r))
    && (forall i, j :: 0 <= i < |net| && 0 <= j < |net| ==> Agree(net[i], net[j]))
  }

  /** The files hold whatever memory holds, and agree with each other. */
  ghost predicate Coherent(net: Cluster) {
    && (forall i :: 0 <= i < |net| ==> forall r :: r in net[i].recs ==> r in net[i].disk)
    && (forall i :: 0 <= i < |net| ==> forall r :: r in net[i].disk ==> Sound(r))
    && (forall i, j :: 0 <= i < |net| && 0 <= j < |net| ==> Agree(net[i].disk, net[j].disk))
  }

  lemma {:induction false} CoherentAgrees(net: Cluster)
    requires Coherent(net)
    ensures Agreeing(Mems(net))
  {
    forall i, j | 0 <= i < |net| && 0 <= j < |net| ensures Agree(Mems(net)[i], Mems(net)[j]) {
      assert Agree(net[i].disk, net[j].disk);
    }
  }

  /** An append that gives no id a second content. */
  ghost predicate Known(net: Cluster, a: Attempt) {
    && (a.op == ASSERT || a.op == DELETE) && (a.op == ASSERT ==> a.id != "")
    && (a.op == ASSERT ==> forall i :: 0 <= i < |net| ==>
          forall s :: s in net[i].disk && s.op == ASSERT && s.id == a.id ==> s.fact == a.fact)
  }

  lemma {:induction false} AppendCoherent(h: HashFn, net: Cluster, at: nat, a: Attempt)
    requires Coherent(net) && at < |net| && Known(net, a)
    ensures Coherent(net[at := AppendOnce(h, net[at], a)])
  {
    var c := Stamp(h, net[at].recs, a.op, a.id, a.fact, a.io.time);
    var net' := net[at := AppendOnce(h, net[at], a)];
    forall i, r | 0 <= i < |net'| && r in net'[i].disk ensures r in net[i].disk || (r == c && Sound(c)) { }
    forall i, j | 0 <= i < |net'| && 0 <= j < |net'| ensures Agree(net'[i].disk, net'[j].disk) {
      assert Agree(net[i].disk, net[j].disk);
      forall r: Record, s: Record
        | r in net'[i].disk && s in net'[j].disk && r.op == ASSERT && s.op == ASSERT && r.id == s.id
        ensures r.fact == s.fact
      {
        assert r in net[i].disk || r == c;
        assert s in net[j].disk || s == c;
      }
    }
  }

  /** What some replica holds is known everywhere. */
  lemma {:induction false} HeldIsKnown(net: Cluster, from: nat, r: Record, io: Io)
    requires Coherent(net) && from < |net| && r in net[from].disk
    ensures Known(net, AttemptOf(r, io))
  {
    forall i | 0 <= i < |net| ensures Agree(net[i].disk, net[from].disk) { }
  }

  lemma {:induction false} PullCoherent(h: HashFn, net: Cluster, at: nat, from: nat, delta: seq<Record>, io: nat -> Io,
                                        i: nat)
    requires Coherent(net) && at < |net| && from < |net| && i <= |delta|
    requires forall r :: r in delta ==> r in net[from].disk
    ensures Coherent(net[at := Pulled(h, net[at], delta, io, i)])
    decreases |delta| - i
  {
    if i == |delta| {
      assert net[at := net[at]] == net;
    } else if !Wanted(net[at].recs, delta[i]) {
      PullCoherent(h, net, at, from, delta, io, i + 1);
    } else {
      var net' := net[at := AppendOnce(h, net[at], AttemptOf(delta[i], io(i)))];
      HeldIsKnown(net, from, delta[i], io(i));
      AppendCoherent(h, net, at, AttemptOf(delta[i], io(i)));
      if io(i).write == Stored {
        PullCoherent(h, net', at, from, delta, io, i + 1);
        assert net'[at := Pulled(h, net'[at], delta, io, i + 1)] == net[at := Pulled(h, net'[at], delta, io, i + 1)];
      }
    }
  }

  lemma {:induction false} DeltaMembers(recs: seq<Record>, since: int)
    ensures forall r :: r in DeltaSince(recs, since) <==> r in recs && r.seqNo > since
  {
    if recs != [] {
      var n := |recs| - 1;
      DeltaMembers(recs[..n], since);
      assert recs == recs[..n] + [recs[n]];
    }
  }

  lemma {:induction false} StepCoherent(h: HashFn, net: Cluster, s: Step)
    requires Coherent(net) && Fresh(net, s)
    ensures Coherent(Next(h, net, s)) && |Next(h, net, s)| == |net|
  {
    if s.at < |net| {
      match s
      case AssertAt(at, _, fact, _) => if Complete(fact) { AppendCoherent(h, net, at, AssertOf(s)); }
      case DeleteAt(at, _, _, _) => AppendCoherent(h, net, at, DeleteOf(s));
      case SyncFrom(at, from, since, ios) =>
        if from < |net| {
          DeltaMembers(net[from].recs, since);
          PullCoherent(h, net, at, from, DeltaSince(net[from].recs, since), ios, 0);
        }
      case Restart(_) =>
    }
  }

  /** Every run of assertions, deletions, partial syncs and restarts, with any write failures and on
      any files, leaves the replicas in agreement: no id ever has two contents. */
  lemma {:induction false} RunKeepsCoherent(h: HashFn, start: Cluster, steps: seq<Step>, end: Cluster)
    requires Coherent(start) && Reaches(h, start, steps, end)
    ensures Coherent(end) && |end| == |start| && Agreeing(Mems(end))
    decreases |steps|
  {
    CoherentAgrees(start);
    if steps != [] {
      StepCoherent(h, start, steps[0]);
      RunKeepsCoherent(h, Next(h, start, steps[0]), steps[1..], end);
    }
  }

  // ---------------------------------------------------------------- verification and history

  /** Memory verifies, and is a prefix of a file that does. */
  ghost predicate SiteOk(h: HashFn, m: Mirror) {
    Linked(h, m.recs) && (Linked(h, m.disk) ==> m.recs <= m.disk)
  }

  ghost predicate Healthy(h: HashFn, net: Cluster) {
    Coherent(net) && forall i :: 0 <= i < |net| ==> SiteOk(h, net[i])
  }

  /** No replica restarts on a file that does not verify. */
  ghost predicate Careful(h: HashFn, net: Cluster, steps: seq<Step>)
    decreases |steps|
  {
    steps == [] ||
    ((steps[0].Restart? && steps[0].at < |net| ==> Linked(h, net[steps[0].at].disk))
     && Careful(h, Next(h, net, steps[0]), steps[1..]))
  }

  lemma {:induction false} AppendSite(h: HashFn, m: Mirror, a: Attempt)
    requires SiteOk(h, m)
    ensures SiteOk(h, AppendOnce(h, m, a)) && m.recs <= AppendOnce(h, m, a).recs
  {
    var r := Stamp(h, m.recs, a.op, a.id, a.fact, a.io.time);
    StampKeepsLinked(h, m.recs, a.op, a.id, a.fact, a.io.time);
    if Linked(h, m.disk) { StampLinks(h, m, a); } else { UnlinkedStays(h, m.disk, r); }
  }

  lemma {:induction false} PullSite(h: HashFn, m: Mirror, delta: seq<Record>, io: nat -> Io, i: nat)
    requires SiteOk(h, m) && i <= |delta|
    ensures SiteOk(h, Pulled(h, m, delta, io, i)) && m.recs <= Pulled(h, m, delta, io, i).recs
    decreases |delta| - i
  {
    if i < |delta| {
      if !Wanted(m.recs, delta[i]) {
        PullSite(h, m, delta, io, i + 1);
      } else {
        AppendSite(h, m, AttemptOf(delta[i], io(i)));
        if io(i).write == Stored { PullSite(h, AppendOnce(h, m, AttemptOf(delta[i], io(i))), delta, io, i + 1); }
      }
    }
  }

  lemma {:induction false} StepKeepsHealthy(h: HashFn, net: Cluster, s: Step)
    requires Healthy(h, net) && Fresh(net, s) && Careful(h, net, [s])
    ensures Healthy(h, Next(h, net, s)) && |Next(h, net, s)| == |net|
    ensures forall i :: 0 <= i < |net| ==> net[i].recs <= Next(h, net, s)[i].recs
  {
    StepCoherent(h, net, s);
    if s.at < |net| {
      assert SiteOk(h, net[s.at]);
      match s
      case AssertAt(at, _, _, _) => AppendSite(h, net[at], AssertOf(s));
      case DeleteAt(at, _, _, _) => AppendSite(h, net[at], DeleteOf(s));
      case SyncFrom(at, from, since, ios) =>
        if from < |net| { PullSite(h, net[at], DeltaSince(net[from].recs, since), ios, 0); }
      case Restart(_) =>
    }
  }

  /** Every run of assertions, deletions, partial syncs and restarts, with any write failures, leaves
      every replica verifying, extends every log, and never gives one id two contents, as long as
      no replica restarts on a file that does not verify. */
  lemma {:induction false} RunKeepsHealthy(h: HashFn, start: Cluster, steps: seq<Step>, end: Cluster)
    requires Healthy(h, start) && Reaches(h, start, steps, end) && Careful(h, start, steps)
    ensures Healthy(h, end) && |end| == |start|
    ensures forall i :: 0 <= i < |start| ==> start[i].recs <= end[i].recs
    decreases |steps|
  {
    if steps != [] {
      assert [steps[0]][1..] == [];
      StepKeepsHealthy(h, start, steps[0]);
      RunKeepsHealthy(h, Next(h, start, steps[0]), steps[1..], end);
    }
  }

  /** Time travel across such a run: what any replica answered as of `n` it answers forever. */
  lemma {:induction false} RunKeepsHistory(h: HashFn, start: Cluster, steps: seq<Step>, end: Cluster, i: nat, n: int)
    requires Healthy(h, start) && Reaches(h, start, steps, end) && Careful(h, start, steps)
    requires i < |start| && 1 <= n <= |start[i].recs|
    ensures |end| == |start|
    ensures Active(UpTo(end[i].recs, n)) == Active(UpTo(start[i].recs, n)) == Active(start[i].recs[..n])
  {
    RunKeepsHealthy(h, start, steps, end);
    assert SiteOk(h, start[i]) && SiteOk(h, end[i]);
    TimeTravelStable(h, start[i].recs, end[i].recs, n);
  }

  // ---------------------------------------------------------------- a replica's life

  /** The appends a sync attempts. */
  function PullEvents(h: HashFn, m: Mirror, delta: seq<Record>, io: nat -> Io, i: nat): seq<LogEvent>
    requires i <= |delta|
    decreases |delta| - i
  {
    if i == |delta| then []
    else if !Wanted(m.recs, delta[i]) then PullEvents(h, m, delta, io, i + 1)
    else
      var a := AttemptOf(delta[i], io(i));
      [Append(a)] + (if io(i).write != Stored then [] else PullEvents(h, AppendOnce(h, m, a), delta, io, i + 1))
  }

  /** What a step is in the life of replica `i`. */
  function EventsAt(h: HashFn, net: Cluster, s: Step, i: nat): seq<LogEvent> {
    if s.at != i || i >= |net| then []
    else
      match s
      case AssertAt(_, _, fact, _) => if Complete(fact) then [Append(AssertOf(s))] else []
      case DeleteAt(_, _, _, _) => [Append(DeleteOf(s))]
      case SyncFrom(_, from, since, ios) =>
        if from < |net| then PullEvents(h, net[i], DeltaSince(net[from].recs, since), ios, 0) else []
      case Restart(_) => [Reopen]
  }

  function Life(h: HashFn, net: Cluster, steps: seq<Step>, i: nat): seq<LogEvent>
    decreases |steps|
  {
    if steps == [] then [] else EventsAt(h, net, steps[0], i) + Life(h, Next(h, net, steps[0]), steps[1..], i)
  }

  lemma {:induction false} PullIsLived(h: HashFn, es: seq<LogEvent>, delta: seq<Record>, io: nat -> Io, i: nat)
    requires i <= |delta|
    ensures LogRun(h, es + PullEvents(h, LogRun(h, es), delta, io, i)) == Pulled(h, LogRun(h, es), delta, io, i)
    decreases |delta| - i
  {
    var m := LogRun(h, es);
    if i == |delta| {
      assert es + [] == es;
    } else if !Wanted(m.recs, delta[i]) {
      PullIsLived(h, es, delta, io, i + 1);
    } else {
      var e := Append(AttemptOf(delta[i], io(i)));
      LogRunSnoc(h, es, e);
      if io(i).write == Stored {
        PullIsLived(h, es + [e], delta, io, i + 1);
        var rest := PullEvents(h, LogRun(h, es + [e]), delta, io, i + 1);
        assert es + ([e] + rest) == (es + [e]) + rest;
      } else {
        assert [e] + [] == [e];
      }
    }
  }

  /** One append, or one reopening, in the life of the replica it happens to. */
  lemma {:induction false} SmallStepIsLived(h: HashFn, net: Cluster, s: Step, es: seq<LogEvent>)
    requires !s.SyncFrom? && s.at < |net| && net[s.at] == LogRun(h, es)
    ensures Next(h, net, s)[s.at] == LogRun(h, es + EventsAt(h, net, s, s.at))
  {
    if s.AssertAt? && !Complete(s.fact) {
      assert es + [] == es;
    } else {
      var e := if s.AssertAt? then Append(AssertOf(s)) else if s.DeleteAt? then Append(DeleteOf(s)) else Reopen;
      LogRunSnoc(h, es, e);
    }
  }

  lemma {:induction false} SyncIsLived(h: HashFn, net: Cluster, s: Step, es: seq<LogEvent>)
    requires s.SyncFrom? && s.at < |net| && net[s.at] == LogRun(h, es)
    ensures Next(h, net, s)[s.at] == LogRun(h, es + EventsAt(h, net, s, s.at))
  {
    if s.from < |net| {
      PullIsLived(h, es, DeltaSince(net[s.from].recs, s.since), s.ios, 0);
    } else {
      assert es + [] == es;
    }
  }

  lemma {:induction false} StepIsLived(h: HashFn, net: Cluster, s: Step, i: nat, es: seq<LogEvent>)
    requires i < |net| && net[i] == LogRun(h, es)
    ensures |Next(h, net, s)| == |net| && Next(h, net, s)[i] == LogRun(h, es + EventsAt(h, net, s, i))
  {
    if s.at != i {
      assert es + [] == es;
    } else if s.SyncFrom? {
      SyncIsLived(h, net, s, es);
    } else {
      SmallStepIsLived(h, net, s, es);
    }
  }

  lemma {:induction false} LifeGoesOn(h: HashFn, net: Cluster, steps: seq<Step>, i: nat, es: seq<LogEvent>)
    requires steps != []
    ensures es + Life(h, net, steps, i) ==
            (es + EventsAt(h, net, steps[0], i)) + Life(h, Next(h, net, steps[0]), steps[1..], i)
  {
  }

  lemma {:induction false} RunIsLived(h: HashFn, net: Cluster, steps: seq<Step>, end: Cluster, i: nat,
                                      es: seq<LogEvent>)
    requires i < |net| && net[i] == LogRun(h, es) && Reaches(h, net, steps, end)
    ensures i < |end| && end[i] == LogRun(h, es + Life(h, net, steps, i))
    decreases |steps|
  {
    if steps == [] {
      assert es + [] == es;
    } else {
      StepIsLived(h, net, steps[0], i, es);
      RunIsLived(h, Next(h, net, steps[0]), steps[1..], end, i, es + EventsAt(h, net, steps[0], i));
      LifeGoesOn(h, net, steps, i, es);
    }
  }

  /** The exact condition, for every replica of every run from empty stores, restarts on any files
      included: its memory verifies if and only if it was never restarted on a forked file, and
      its file if and only if no append reached it while it was ahead of memory. */
  lemma {:induction false} ReplicaVerifiesIff(h: HashFn, start: Cluster, steps: seq<Step>, end: Cluster, i: nat)
    requires i < |start| && start[i] == Mirror([], []) && Reaches(h, start, steps, end)
    ensures i < |end|
    ensures Linked(h, end[i].recs) <==> !LoadedFork(Life(h, start, steps, i))
    ensures Linked(h, end[i].disk) <==> !Forked(Life(h, start, steps, i))
  {
    RunIsLived(h, start, steps, end, i, []);
    assert [] + Life(h, start, steps, i) == Life(h, start, steps, i);
    FileVerifiesIff(h, Life(h, start, steps, i));
  }

  // ---------------------------------------------------------------- agreement

  /** `a` holds every well-formed (op, id) that `b` holds. */
  ghost predicate Covers(a: seq<Record>, b: seq<Record>) {
    forall r :: r in b && WellFormed(r) ==> Key(r) in Keys(a)
  }

  predicate SameContent(r: Record, c: Record) {
    r.op == c.op && r.id == c.id && r.fact == c.fact
  }

  /** Every record of `log` repeats the content of some record of `base`. */
  ghost predicate Drawn(log: seq<Record>, base: seq<Record>) {
    forall c :: c in log ==> exists r :: r in base && SameContent(r, c)
  }

  lemma {:induction false} CoversLive(a: seq<Record>, b: seq<Record>)
    requires (forall r :: r in a ==> Sound(r)) && forall r :: r in b ==> Sound(r)
    requires Covers(a, b)
    ensures Asserted(b) <= Asserted(a) && Deleted(b) - {""} <= Deleted(a)
  {
    forall r | r in b && WellFormed(r)
      ensures r.op == ASSERT ==> r.id in Asserted(a)
      ensures r.op == DELETE ==> r.id in Deleted(a)
    {
      var s :| s in a && Key(s) == Key(r);
      KeyInjective(s, r);
    }
  }

  /** A log drawn from a consistent base that covers the base shows exactly the base's facts. */
  lemma {:induction false} DrawnAndCovering(log: seq<Record>, base: seq<Record>)
    requires (forall r :: r in base ==> Sound(r)) && Consistent(base)
    requires Drawn(log, base) && Covers(log, base)
    ensures View(log) == View(base)
  {
    forall c | c in log ensures Sound(c) && (WellFormed(c) ==> Key(c) in Keys(base)) {
      var r :| r in base && SameContent(r, c);
      assert Key(r) == Key(c);
    }
    CoversLive(log, base);
    CoversLive(base, log);
    assert "" !in Asserted(log) && "" !in Asserted(base);
    assert Live(log) == Live(base);
    forall id | id in Live(log) ensures LastAssert(log, id).fact == LastAssert(base, id).fact {
      var c := LastAssert(log, id);
      var r :| r in base && SameContent(r, c);
    }
  }

  /** Strong eventual consistency for any number of replicas: once every replica has received
      every other's records, by whatever route and in whatever order, all show the same facts,
      and those are the facts of the merged logs. */
  lemma {:induction false} CaughtUpReplicasAgree(net: Net, out: seq<Record>)
    requires Agreeing(net) && IsMerge(net, out)
    requires forall i, j :: 0 <= i < |net| && 0 <= j < |net| ==> Covers(net[i], net[j])
    ensures forall i :: 0 <= i < |net| ==> View(net[i]) == View(Flatten(net))
    ensures forall i :: 0 <= i < |net| ==> View(net[i]).Keys == set r | r in out :: r.id
    ensures forall i, r :: 0 <= i < |net| && r in out ==> View(net[i])[r.id] == r.fact
  {
    var all := Flatten(net);
    FlattenMembers(net);
    FlattenConsistent(net);
    MergeIsView(net, out);
    forall i | 0 <= i < |net| ensures View(net[i]) == View(all) {
      forall r | r in all && WellFormed(r) ensures Key(r) in Keys(net[i]) {
        var j :| 0 <= j < |net| && r in net[j];
        assert Covers(net[i], net[j]);
      }
      forall c | c in net[i] ensures exists r :: r in all && SameContent(r, c) { assert SameContent(c, c); }
      DrawnAndCovering(net[i], all);
    }
  }

  lemma {:induction false} FlattenConsistent(net: Net)
    requires Agreeing(net)
    ensures Consistent(Flatten(net)) && forall r :: r in Flatten(net) ==> Sound(r)
  {
    FlattenMembers(net);
    forall r, s | r in Flatten(net) && s in Flatten(net) && r.op == ASSERT && s.op == ASSERT && r.id == s.id
      ensures r.fact == s.fact
    {
      var i :| 0 <= i < |net| && r in net[i];
      var j :| 0 <= j < |net| && s in net[j];
      assert Agree(net[i], net[j]);
    }
  }

  lemma {:induction false} ApplyDrawn(h: HashFn, recs: seq<Record>, delta: seq<Record>, io: nat -> Io,
                                      base: seq<Record>)
    requires NoFailures(io) && Drawn(recs, base) && Drawn(delta, base)
    ensures var log := Apply(h, recs, delta, io, 0).recs;
            Drawn(log, base) && Covers(log, delta) && Covers(log, recs)
  {
    var log := Apply(h, recs, delta, io, 0).recs;
    ApplyExtends(h, recs, delta, io, 0);
    ApplyKeys(h, recs, delta, io, 0);
    assert delta[0..] == delta;
    forall c | c in log ensures exists r :: r in base && SameContent(r, c) {
      assert log == recs + log[|recs|..];
      if c !in recs {
        assert c in log[|recs|..];
        var d :| d in delta && d.op == c.op && d.id == c.id && d.fact == c.fact;
        var r :| r in base && SameContent(r, d);
        assert SameContent(r, c);
      }
    }
  }

  lemma {:induction false} PairBase(x: seq<Record>, y: seq<Record>)
    requires Agreeing([x, y])
    ensures var base := Flatten([x, y]);
            && (forall r :: r in base <==> r in x || r in y)
            && (forall r :: r in base ==> Sound(r)) && Consistent(base)
            && Drawn(x, base) && Drawn(y, base)
  {
    var pair: Net := [x, y];
    var base := Flatten(pair);
    FlattenConsistent(pair);
    FlattenMembers(pair);
    forall r ensures r in base <==> r in x || r in y {
      assert r in x ==> r in pair[0];
      assert r in y ==> r in pair[1];
    }
    forall c | c in base ensures exists r :: r in base && SameContent(r, c) { assert SameContent(c, c); }
  }

  /** `a` holds everything well formed that `b` holds up to the watermark. */
  ghost predicate CoversBelow(a: seq<Record>, b: seq<Record>, since: int) {
    forall r :: r in b && r.seqNo <= since && WellFormed(r) ==> Key(r) in Keys(a)
  }

  /** Applying the delta past a watermark below which nothing is missing covers the whole sender,
      whether or not the sender's log verifies. */
  lemma {:induction false} DeltaCovers(h: HashFn, recs: seq<Record>, sender: seq<Record>, since: int, io: nat -> Io,
                                       base: seq<Record>)
    requires NoFailures(io) && Drawn(recs, base) && Drawn(sender, base) && CoversBelow(recs, sender, since)
    ensures var log := Apply(h, recs, DeltaSince(sender, since), io, 0).recs;
            Drawn(log, base) && Covers(log, sender) && Covers(log, recs)
  {
    var delta := DeltaSince(sender, since);
    DeltaMembers(sender, since);
    forall c | c in delta ensures exists r :: r in base && SameContent(r, c) { assert c in sender; }
    ApplyDrawn(h, recs, delta, io, base);
    ApplyExtends(h, recs, delta, io, 0);
    var log := Apply(h, recs, delta, io, 0).recs;
    forall r | r in sender && WellFormed(r) ensures Key(r) in Keys(log) {
      if r.seqNo <= since {
        var s :| s in recs && Key(s) == Key(r);
        assert s in log;
      } else {
        assert r in delta;
      }
    }
  }

  lemma {:induction false} Exchange(h: HashFn, x: seq<Record>, y: seq<Record>, i: int, j: int, io: nat -> Io,
                                    jo: nat -> Io, late: bool)
    requires Agreeing([x, y]) && NoFailures(io) && NoFailures(jo)
    requires CoversBelow(x, y, i) && CoversBelow(y, if late then Apply(h, x, DeltaSince(y, i), io, 0).recs else x, j)
    ensures var a := Apply(h, x, DeltaSince(y, i), io, 0).recs;
            var b := Apply(h, y, DeltaSince(if late then a else x, j), jo, 0).recs;
            View(a) == View(b) == View(Flatten([x, y]))
  {
    var base := Flatten([x, y]);
    PairBase(x, y);
    var a := Apply(h, x, DeltaSince(y, i), io, 0).recs;
    DeltaCovers(h, x, y, i, io, base);
    DrawnAndCovering(a, base);
    var src := if late then a else x;
    DeltaCovers(h, y, src, j, jo, base);
    var b := Apply(h, y, DeltaSince(src, j), jo, 0).recs;
    CoversTransitive(b, src, x, base);
    DrawnAndCovering(b, base);
  }

  lemma {:induction false} PairAgreeing(net: Net, i: nat, j: nat)
    requires Agreeing(net) && i < |net| && j < |net|
    ensures Agreeing([net[i], net[j]])
  {
    assert Agree(net[i], net[j]) && Agree(net[j], net[i]) && Agree(net[i], net[i]) && Agree(net[j], net[j]);
  }

  /** Two replicas of any reachable network, restarts on any files included, that apply each other's
      deltas end with the same facts, and they are the facts of the merge of the two original logs.
      Each may ask from any watermark up to which it already holds the sender's records, and the
      second replica may read the first before (`late` false) or after the first has synced. */
  lemma {:induction false} PairConverges(h: HashFn, start: Cluster, steps: seq<Step>, net: Cluster, i: nat, j: nat,
                                         from: int, back: int, io: nat -> Io, jo: nat -> Io, late: bool)
    requires Coherent(start) && Reaches(h, start, steps, net)
    requires i < |net| && j < |net| && NoFailures(io) && NoFailures(jo)
    requires CoversBelow(net[i].recs, net[j].recs, from)
    requires CoversBelow(net[j].recs,
                         if late then Apply(h, net[i].recs, DeltaSince(net[j].recs, from), io, 0).recs
                         else net[i].recs, back)
    ensures var a := Apply(h, net[i].recs, DeltaSince(net[j].recs, from), io, 0).recs;
            var b := Apply(h, net[j].recs, DeltaSince(if late then a else net[i].recs, back), jo, 0).recs;
            View(a) == View(b) == View(Flatten([net[i].recs, net[j].recs]))
  {
    RunKeepsCoherent(h, start, steps, net);
    PairAgreeing(Mems(net), i, j);
    Exchange(h, net[i].recs, net[j].recs, from, back, io, jo, late);
  }

  lemma {:induction false} CoversTransitive(a: seq<Record>, b: seq<Record>, c: seq<Record>, base: seq<Record>)
    requires Covers(a, b) && Covers(b, c) && Drawn(b, base)
    requires forall r :: r in base ==> Sound(r)
    requires forall r :: r in c ==> Sound(r)
    ensures Covers(a, c)
  {
    forall r | r in c && WellFormed(r) ensures Key(r) in Keys(a) {
      var s :| s in b && Key(s) == Key(r);
      var t :| t in base && SameContent(t, s);
      KeyInjective(s, r);
    }
  }
}
