/** The knowledge graph's hash-chained log as a value: what `Verify` checks, what the
    active fold means, and how a delta from another replica is re-appended.
    The hash function is a parameter: nothing below assumes it is injective unless it says so. */
module KgLog {

  /** The content a replica preserves when it re-appends another replica's record. */
  datatype Fact = Fact(s: string, p: string, o: string, peer: string,
                       corpus: string, source: string, validFrom: string)

  datatype Record = Record(seqNo: int, op: string, id: string, fact: Fact,
                           time: string, prevHash: string, hash: string)

  type HashFn = Record -> string

  /** What one append met outside the process: the clock's text and the fate of the write.
      `Landed` is a failure reported although the line reached the file. */
  datatype Write = Stored | Refused | Landed
  datatype Io = Io(time: string, write: Write)

  const ASSERT := "assert"
  const DELETE := "delete"

  function ChainHash(h: HashFn, r: Record): string {
    h(r.(hash := ""))
  }

  function LastSeq(recs: seq<Record>): int {
    if recs == [] then 0 else recs[|recs| - 1].seqNo
  }

  function LastHash(recs: seq<Record>): string {
    if recs == [] then "" else recs[|recs| - 1].hash
  }

  /** Sequence contiguity and hash linkage at position `i`. */
  predicate LinkedAt(h: HashFn, recs: seq<Record>, i: nat)
    requires i < |recs|
  {
    && recs[i].seqNo == i + 1
    && recs[i].prevHash == LastHash(recs[..i])
    && ChainHash(h, recs[i]) == recs[i].hash
  }

  predicate Linked(h: HashFn, recs: seq<Record>) {
    forall i: nat :: i < |recs| ==> LinkedAt(h, recs, i)
  }

  function Stamp(h: HashFn, recs: seq<Record>, op: string, id: string, fact: Fact, time: string): Record {
    var r := Record(LastSeq(recs) + 1, op, id, fact, time, LastHash(recs), "");
    r.(hash := ChainHash(h, r))
  }

  lemma {:induction false} LinkedPrefix(h: HashFn, recs: seq<Record>, n: nat)
    requires Linked(h, recs) && n <= |recs|
    ensures Linked(h, recs[..n])
  {
    forall i: nat | i < n ensures LinkedAt(h, recs[..n], i) {
      assert LinkedAt(h, recs, i);
      assert recs[..n][..i] == recs[..i];
    }
  }

  lemma {:induction false} LinkedSnoc(h: HashFn, recs: seq<Record>, r: Record)
    ensures Linked(h, recs + [r]) <==>
            Linked(h, recs) && r.seqNo == |recs| + 1 && r.prevHash == LastHash(recs) && ChainHash(h, r) == r.hash
  {
    var all := recs + [r];
    assert all[..|recs|] == recs;
    if Linked(h, all) {
      LinkedPrefix(h, all, |recs|);
      assert LinkedAt(h, all, |recs|);
    }
    if Linked(h, recs) && r.seqNo == |recs| + 1 && r.prevHash == LastHash(recs) && ChainHash(h, r) == r.hash {
      forall i: nat | i < |all| ensures LinkedAt(h, all, i) {
        assert i < |recs| ==> LinkedAt(h, recs, i) && all[..i] == recs[..i];
      }
    }
  }

  lemma {:induction false} LinkedLastSeq(h: HashFn, recs: seq<Record>)
    requires Linked(h, recs)
    ensures LastSeq(recs) == |recs|
  {
    if recs != [] { assert LinkedAt(h, recs, |recs| - 1); }
  }

  lemma {:induction false} StampKeepsLinked(h: HashFn, recs: seq<Record>, op: string, id: string, fact: Fact,
                                            time: string)
    requires Linked(h, recs)
    ensures Linked(h, recs + [Stamp(h, recs, op, id, fact, time)])
  {
    LinkedLastSeq(h, recs);
    var r := Record(LastSeq(recs) + 1, op, id, fact, time, LastHash(recs), "");
    var s := Stamp(h, recs, op, id, fact, time);
    assert s.(hash := "") == r;
    LinkedSnoc(h, recs, s);
  }

  // ---------------------------------------------------------------- tamper evidence

  /** The hash function is seen to collide on a record of `a` and one of `b`. */
  ghost predicate CollideIn(h: HashFn, a: seq<Record>, b: seq<Record>) {
    exists x, y :: x in a && y in b && Collide(h, x, y)
  }

  /** Two records that differ in more than the hash they carry, and hash alike. */
  predicate Collide(h: HashFn, x: Record, y: Record) {
    x.(hash := "") != y.(hash := "") && ChainHash(h, x) == ChainHash(h, y)
  }

  /** Two non-empty verifying logs with the same head hash are the same log, record for record, or
      a record of one and a record of the other are a collision. */
  lemma {:induction false} HeadDeterminesLog(h: HashFn, a: seq<Record>, b: seq<Record>)
    requires Linked(h, a) && Linked(h, b)
    requires a != [] && b != [] && LastHash(a) == LastHash(b)
    ensures a == b || CollideIn(h, a, b)
    decreases |a|
  {
    var n, m := |a| - 1, |b| - 1;
    assert LinkedAt(h, a, n) && LinkedAt(h, b, m);
    assert ChainHash(h, a[n]) == ChainHash(h, b[m]);
    if a[n].(hash := "") == b[m].(hash := "") {
      assert a[n] == b[m] && n == m;
      if n > 0 {
        LinkedPrefix(h, a, n);
        LinkedPrefix(h, b, n);
        HeadDeterminesLog(h, a[..n], b[..n]);
        if CollideIn(h, a[..n], b[..n]) {
          var x, y :| x in a[..n] && y in b[..n] && Collide(h, x, y);
          assert x in a && y in b;
        }
      }
      assert a == a[..n] + [a[n]] && b == b[..n] + [b[n]];
    } else {
      assert Collide(h, a[n], b[m]);
    }
  }

  /** Any edit, reordering or truncation that still verifies moves the head, unless it found a
      collision with a record of the original. */
  lemma {:induction false} TamperingMovesTheHead(h: HashFn, original: seq<Record>, tampered: seq<Record>)
    requires !CollideIn(h, original, tampered)
    requires Linked(h, original) && Linked(h, tampered)
    requires original != [] && tampered != []
    ensures original != tampered <==> LastHash(original) != LastHash(tampered)
  {
    if LastHash(original) == LastHash(tampered) {
      HeadDeterminesLog(h, original, tampered);
    }
  }

  // ---------------------------------------------------------------- the active fold

  function Asserted(recs: seq<Record>): set<string> {
    set r | r in recs && r.op == ASSERT :: r.id
  }

  function Deleted(recs: seq<Record>): set<string> {
    set r | r in recs && r.op == DELETE :: r.id
  }

  function Live(recs: seq<Record>): set<string> {
    Asserted(recs) - Deleted(recs)
  }

  lemma {:induction false} AssertedSnoc(recs: seq<Record>, r: Record)
    ensures Asserted(recs + [r]) == Asserted(recs) + (if r.op == ASSERT then {r.id} else {})
    ensures Deleted(recs + [r]) == Deleted(recs) + (if r.op == DELETE then {r.id} else {})
  {
    assert forall x :: x in recs + [r] <==> x in recs || x == r;
  }

  function LastAssert(recs: seq<Record>, id: string): (r: Record)
    requires id in Asserted(recs)
    ensures r in recs && r.op == ASSERT && r.id == id
  {
    var n := |recs| - 1;
    assert recs == recs[..n] + [recs[n]];
    if recs[n].op == ASSERT && recs[n].id == id then recs[n]
    else AssertedSnoc(recs[..n], recs[n]); LastAssert(recs[..n], id)
  }

  lemma {:induction false} LastAssertSnoc(recs: seq<Record>, r: Record, id: string)
    requires id in Asserted(recs + [r])
    ensures (r.op == ASSERT && r.id == id) || id in Asserted(recs)
    ensures LastAssert(recs + [r], id) == if r.op == ASSERT && r.id == id then r else LastAssert(recs, id)
  {
    AssertedSnoc(recs, r);
    assert (recs + [r])[..|recs|] == recs;
  }

  /** The tombstones and last assertions a fold keeps of the records it has seen. */
  ghost predicate Folded(seen: seq<Record>, deleted: set<string>, asserts: map<string, Record>) {
    && deleted == Deleted(seen) && asserts.Keys == Asserted(seen)
    && forall id :: id in asserts ==> asserts[id] == LastAssert(seen, id)
  }

  lemma {:induction false} FoldedSnoc(seen: seq<Record>, deleted: set<string>, asserts: map<string, Record>, r: Record)
    requires Folded(seen, deleted, asserts)
    ensures Folded(seen + [r], if r.op == DELETE then deleted + {r.id} else deleted,
                   if r.op == ASSERT then asserts[r.id := r] else asserts)
  {
    AssertedSnoc(seen, r);
    LastAssertsSnoc(seen, r);
  }

  lemma {:induction false} LastAssertsSnoc(recs: seq<Record>, r: Record)
    ensures forall id :: id in Asserted(recs + [r]) ==>
              (if r.op == ASSERT && r.id == id then LastAssert(recs + [r], id) == r
               else id in Asserted(recs) && LastAssert(recs + [r], id) == LastAssert(recs, id))
  {
    forall id | id in Asserted(recs + [r])
      ensures if r.op == ASSERT && r.id == id then LastAssert(recs + [r], id) == r
              else id in Asserted(recs) && LastAssert(recs + [r], id) == LastAssert(recs, id)
    {
      LastAssertSnoc(recs, r, id);
    }
  }

  /** The asserted ids in order of first assertion. */
  function FirstOrder(recs: seq<Record>): seq<string> {
    if recs == [] then []
    else
      var n := |recs| - 1;
      var before := FirstOrder(recs[..n]);
      if recs[n].op == ASSERT && recs[n].id !in Asserted(recs[..n]) then before + [recs[n].id] else before
  }

  lemma {:induction false} FirstOrderIsAsserted(recs: seq<Record>)
    ensures forall id :: id in FirstOrder(recs) <==> id in Asserted(recs)
    ensures forall i, j :: 0 <= i < j < |FirstOrder(recs)| ==> FirstOrder(recs)[i] != FirstOrder(recs)[j]
  {
    if recs != [] {
      var n := |recs| - 1;
      FirstOrderIsAsserted(recs[..n]);
      AssertedSnoc(recs[..n], recs[n]);
      assert recs == recs[..n] + [recs[n]];
    }
  }

  /** `i` is where `id` is first asserted. */
  ghost predicate FirstAt(recs: seq<Record>, id: string, i: nat) {
    && i < |recs| && recs[i].op == ASSERT && recs[i].id == id
    && forall j :: 0 <= j < i ==> !(recs[j].op == ASSERT && recs[j].id == id)
  }

  /** The list really is in order of first assertion. */
  lemma {:induction false} FirstOrderInOrder(recs: seq<Record>, a: nat, b: nat, i: nat, j: nat)
    requires a < b < |FirstOrder(recs)|
    requires FirstAt(recs, FirstOrder(recs)[a], i) && FirstAt(recs, FirstOrder(recs)[b], j)
    ensures i < j
    decreases |recs|
  {
    var n := |recs| - 1;
    var front := FirstOrder(recs[..n]);
    FirstOrderIsAsserted(recs[..n]);
    assert forall k :: 0 <= k < n ==> recs[..n][k] == recs[k];
    var x, y := FirstOrder(recs)[a], FirstOrder(recs)[b];
    assert a < |front| && x in front;
    FirstAtBefore(recs, x, i);
    if b < |front| {
      assert y in front;
      FirstAtBefore(recs, y, j);
      FirstOrderInOrder(recs[..n], a, b, i, j);
    } else {
      assert j < n ==> recs[..n][j].id in Asserted(recs[..n]);
    }
  }

  lemma {:induction false} FirstAtBefore(recs: seq<Record>, id: string, i: nat)
    requires recs != [] && id in Asserted(recs[..|recs| - 1]) && FirstAt(recs, id, i)
    ensures i < |recs| - 1 && FirstAt(recs[..|recs| - 1], id, i)
  {
    var n := |recs| - 1;
    var r :| r in recs[..n] && r.op == ASSERT && r.id == id;
    var k :| 0 <= k < n && recs[..n][k] == r;
    assert recs[k] == r;
  }

  /** The surviving assertions of `ids`, in the order of `ids`. */
  function Survivors(recs: seq<Record>, ids: seq<string>): seq<Record>
    requires forall id :: id in ids ==> id in Asserted(recs)
  {
    if ids == [] then []
    else
      var n := |ids| - 1;
      var before := Survivors(recs, ids[..n]);
      if ids[n] in Deleted(recs) then before else before + [LastAssert(recs, ids[n])]
  }

  function Active(recs: seq<Record>): seq<Record> {
    FirstOrderIsAsserted(recs);
    Survivors(recs, FirstOrder(recs))
  }

  lemma {:induction false} SurvivorsExact(recs: seq<Record>, ids: seq<string>)
    requires forall id :: id in ids ==> id in Asserted(recs)
    requires forall i, j :: 0 <= i < j < |ids| ==> ids[i] != ids[j]
    ensures forall r :: r in Survivors(recs, ids) <==>
                        r.id in ids && r.id in Live(recs) && r == LastAssert(recs, r.id)
    ensures forall i, j :: 0 <= i < j < |Survivors(recs, ids)| ==>
            Survivors(recs, ids)[i].id != Survivors(recs, ids)[j].id
  {
    if ids != [] {
      var n := |ids| - 1;
      SurvivorsExact(recs, ids[..n]);
      assert ids == ids[..n] + [ids[n]];
      assert ids[n] !in ids[..n];
    }
  }

  /** The fold keeps exactly one record for each id that was asserted and never deleted:
      the last assertion of it. Position of the tombstone does not matter. */
  lemma {:induction false} ActiveExact(recs: seq<Record>)
    ensures forall r :: r in Active(recs) <==> r.id in Live(recs) && r == LastAssert(recs, r.id)
    ensures forall i, j :: 0 <= i < j < |Active(recs)| ==> Active(recs)[i].id != Active(recs)[j].id
  {
    FirstOrderIsAsserted(recs);
    SurvivorsExact(recs, FirstOrder(recs));
  }

  /** The longest prefix with no sequence number above `n`: what a read as of `n` looks at. */
  function UpTo(recs: seq<Record>, n: int): seq<Record> {
    if recs == [] || recs[0].seqNo > n then [] else [recs[0]] + UpTo(recs[1..], n)
  }

  lemma {:induction false} UpToSplit(recs: seq<Record>, n: int, k: nat)
    requires k <= |recs|
    requires forall i :: 0 <= i < k ==> recs[i].seqNo <= n
    requires k < |recs| ==> recs[k].seqNo > n
    ensures UpTo(recs, n) == recs[..k]
    decreases k
  {
    if k > 0 {
      UpToSplit(recs[1..], n, k - 1);
      assert recs[..k] == [recs[0]] + recs[1..][..k - 1];
    }
  }

  /** In a verifying log a read as of `n` looks at exactly the first `n` records, and the
      answer is the same in every later log that extends this one. */
  lemma {:induction false} TimeTravelStable(h: HashFn, recs: seq<Record>, later: seq<Record>, n: int)
    requires Linked(h, recs) && Linked(h, later) && recs <= later
    requires 1 <= n <= |recs|
    ensures UpTo(recs, n) == recs[..n] == UpTo(later, n)
    ensures Active(UpTo(later, n)) == Active(recs[..n])
  {
    forall i: nat | i < |recs| ensures recs[i].seqNo == i + 1 { assert LinkedAt(h, recs, i); }
    forall i: nat | i < |later| ensures later[i].seqNo == i + 1 { assert LinkedAt(h, later, i); }
    UpToSplit(recs, n, n);
    UpToSplit(later, n, n);
    assert later[..n] == recs[..n];
  }

  lemma {:induction false} UpToAll(h: HashFn, recs: seq<Record>)
    requires Linked(h, recs)
    ensures UpTo(recs, LastSeq(recs)) == recs
  {
    LinkedLastSeq(h, recs);
    forall i: nat | i < |recs| ensures recs[i].seqNo == i + 1 { assert LinkedAt(h, recs, i); }
    UpToSplit(recs, |recs|, |recs|);
    assert recs[..|recs|] == recs;
  }

  // ---------------------------------------------------------------- deltas

  predicate WellFormed(r: Record) {
    r.id != "" && (r.op == ASSERT || r.op == DELETE)
  }

  function Key(r: Record): string {
    r.op + "\0" + r.id
  }

  function Keys(recs: seq<Record>): set<string> {
    set r | r in recs :: Key(r)
  }

  lemma {:induction false} KeysSnoc(recs: seq<Record>, r: Record)
    ensures Keys(recs + [r]) == Keys(recs) + {Key(r)}
  {
    assert forall x :: x in recs + [r] <==> x in recs || x == r;
  }

  /** For the two operations the log knows, the composite key names one (op, id) pair. */
  lemma {:induction false} KeyInjective(a: Record, b: Record)
    requires a.op == ASSERT || a.op == DELETE
    requires b.op == ASSERT || b.op == DELETE
    ensures Key(a) == Key(b) <==> a.op == b.op && a.id == b.id
  {
    var n := |a.op| + 1;
    assert Key(a)[0] == a.op[0] && Key(b)[0] == b.op[0];
    if Key(a) == Key(b) {
      assert a.op == b.op;
      assert Key(a)[n..] == a.id && Key(b)[n..] == b.id;
    }
  }

  function DeltaSince(recs: seq<Record>, since: int): seq<Record> {
    if recs == [] then []
    else
      var n := |recs| - 1;
      var before := DeltaSince(recs[..n], since);
      if recs[n].seqNo > since then before + [recs[n]] else before
  }

  /** In a verifying log the delta past a watermark is the tail of the log. */
  lemma {:induction false} DeltaSinceIsTail(h: HashFn, recs: seq<Record>, since: int)
    requires Linked(h, recs)
    ensures DeltaSince(recs, since) == recs[if since <= 0 then 0 else if since <= |recs| then since else |recs|..]
  {
    if recs != [] {
      var n := |recs| - 1;
      assert LinkedAt(h, recs, n);
      LinkedPrefix(h, recs, n);
      DeltaSinceIsTail(h, recs[..n], since);
      assert recs == recs[..n] + [recs[n]];
    }
  }

  datatype Applied = Applied(recs: seq<Record>, ok: bool)

  predicate Wanted(recs: seq<Record>, r: Record) {
    WellFormed(r) && Key(r) !in Keys(recs)
  }

  /** Re-append the wanted records of `delta` from position `i`, stopping at the first failed write. */
  function Apply(h: HashFn, recs: seq<Record>, delta: seq<Record>, io: nat -> Io, i: nat): Applied
    requires i <= |delta|
    decreases |delta| - i
  {
    if i == |delta| then Applied(recs, true)
    else if !Wanted(recs, delta[i]) then Apply(h, recs, delta, io, i + 1)
    else if io(i).write != Stored then Applied(recs, false)
    else Apply(h, recs + [Copy(h, recs, delta[i], io(i).time)], delta, io, i + 1)
  }

  function Copy(h: HashFn, recs: seq<Record>, r: Record, time: string): (c: Record)
    ensures c.op == r.op && c.id == r.id && c.fact == r.fact && Key(c) == Key(r)
  {
    Stamp(h, recs, r.op, r.id, r.fact, time)
  }

  /** Whatever fails, an apply only extends the log, keeps it verifying, and invents nothing. */
  lemma {:induction false} ApplyExtends(h: HashFn, recs: seq<Record>, delta: seq<Record>, io: nat -> Io, i: nat)
    requires i <= |delta|
    ensures recs <= Apply(h, recs, delta, io, i).recs
    ensures Linked(h, recs) ==> Linked(h, Apply(h, recs, delta, io, i).recs)
    ensures forall c :: c in Apply(h, recs, delta, io, i).recs[|recs|..] ==>
                        WellFormed(c) && exists r :: r in delta && r.op == c.op && r.id == c.id && r.fact == c.fact
    decreases |delta| - i
  {
    if i < |delta| {
      if !Wanted(recs, delta[i]) {
        ApplyExtends(h, recs, delta, io, i + 1);
      } else if io(i).write == Stored {
        var c := Copy(h, recs, delta[i], io(i).time);
        if Linked(h, recs) { StampKeepsLinked(h, recs, delta[i].op, delta[i].id, delta[i].fact, io(i).time); }
        ApplyExtends(h, recs + [c], delta, io, i + 1);
        var out := Apply(h, recs, delta, io, i).recs;
        assert out[|recs|..] == [c] + out[|recs| + 1..];
        assert delta[i] in delta;
      }
    }
  }

  ghost predicate NoFailures(io: nat -> Io) {
    forall i: nat :: io(i).write == Stored
  }

  /** A failure-free apply ends up holding every well-formed (op, id) of the delta, and no other new one. */
  lemma {:induction false} ApplyKeys(h: HashFn, recs: seq<Record>, delta: seq<Record>, io: nat -> Io, i: nat)
    requires i <= |delta| && NoFailures(io)
    ensures Apply(h, recs, delta, io, i).ok
    ensures Keys(Apply(h, recs, delta, io, i).recs) == Keys(recs) + (set r | r in delta[i..] && WellFormed(r) :: Key(r))
    decreases |delta| - i
  {
    if i < |delta| {
      assert delta[i..] == [delta[i]] + delta[i + 1..];
      if !Wanted(recs, delta[i]) {
        ApplyKeys(h, recs, delta, io, i + 1);
      } else {
        var c := Copy(h, recs, delta[i], io(i).time);
        KeysSnoc(recs, c);
        ApplyKeys(h, recs + [c], delta, io, i + 1);
      }
    }
  }

  lemma {:induction false} ApplyNothingWanted(h: HashFn, recs: seq<Record>, delta: seq<Record>, io: nat -> Io, i: nat,
                                              w: nat)
    requires i <= w <= |delta|
    requires forall k :: i <= k < w ==> !Wanted(recs, delta[k])
    ensures Apply(h, recs, delta, io, i) == Apply(h, recs, delta, io, w)
    decreases w - i
  {
    if i < w { ApplyNothingWanted(h, recs, delta, io, i + 1, w); }
  }

  /** Re-applying a delta appends nothing, whatever the second attempt's writes would do. */
  lemma {:induction false} ApplyIdempotent(h: HashFn, recs: seq<Record>, delta: seq<Record>, io: nat -> Io,
                                           again: nat -> Io)
    requires NoFailures(io)
    ensures var once := Apply(h, recs, delta, io, 0).recs;
            Apply(h, once, delta, again, 0) == Applied(once, true)
  {
    var once := Apply(h, recs, delta, io, 0).recs;
    ApplyKeys(h, recs, delta, io, 0);
    assert delta[0..] == delta;
    forall k | 0 <= k < |delta| ensures !Wanted(once, delta[k]) {
      assert delta[k] in delta;
    }
    ApplyNothingWanted(h, once, delta, again, 0, |delta|);
  }

  lemma {:induction false} ApplyShift(h: HashFn, recs: seq<Record>, delta: seq<Record>, io: nat -> Io, w: nat, i: nat)
    requires w + i <= |delta|
    ensures Apply(h, recs, delta[w..], (k: nat) => io(k + w), i) == Apply(h, recs, delta, io, w + i)
    decreases |delta| - w - i
  {
    if w + i < |delta| {
      assert delta[w..][i] == delta[w + i];
      if !Wanted(recs, delta[w + i]) {
        ApplyShift(h, recs, delta, io, w, i + 1);
      } else if io(w + i).write == Stored {
        ApplyShift(h, recs + [Copy(h, recs, delta[w + i], io(w + i).time)], delta, io, w, i + 1);
      }
    }
  }

  /** Incremental sync refines full sync: a receiver that already holds every well-formed
      (op, id) below the watermark appends the same records from the delta as from the whole
      log, write failures included. */
  lemma {:induction false} IncrementalRefinesFull(h: HashFn, recs: seq<Record>, sender: seq<Record>, since: int,
                                                  io: nat -> Io)
    requires Linked(h, sender)
    requires forall i :: 0 <= i < |sender| && i < since && WellFormed(sender[i]) ==> Key(sender[i]) in Keys(recs)
    ensures var w := |sender| - |DeltaSince(sender, since)|;
            w >= 0 &&
            Apply(h, recs, DeltaSince(sender, since), (k: nat) => io(k + w), 0) == Apply(h, recs, sender, io, 0)
  {
    DeltaSinceIsTail(h, sender, since);
    var w: nat := |sender| - |DeltaSince(sender, since)|;
    ApplyNothingWanted(h, recs, sender, io, 0, w);
    ApplyShift(h, recs, sender, io, w, 0);
  }

  // ---------------------------------------------------------------- the log on disk

  /** Memory and file after one attempted append. */
  datatype Mirror = Mirror(recs: seq<Record>, disk: seq<Record>)
  datatype Attempt = Attempt(op: string, id: string, fact: Fact, io: Io)

  function AppendOnce(h: HashFn, m: Mirror, a: Attempt): Mirror {
    var r := Stamp(h, m.recs, a.op, a.id, a.fact, a.io.time);
    match a.io.write
    case Stored => Mirror(m.recs + [r], m.disk + [r])
    case Refused => m
    case Landed => Mirror(m.recs, m.disk + [r])
  }

  function AttemptOf(r: Record, io: Io): Attempt {
    Attempt(r.op, r.id, r.fact, io)
  }

  /** Memory and file after re-appending the wanted records of `delta` from position `i`. */
  function Pulled(h: HashFn, m: Mirror, delta: seq<Record>, io: nat -> Io, i: nat): Mirror
    requires i <= |delta|
    decreases |delta| - i
  {
    if i == |delta| then m
    else if !Wanted(m.recs, delta[i]) then Pulled(h, m, delta, io, i + 1)
    else
      var m' := AppendOnce(h, m, AttemptOf(delta[i], io(i)));
      if io(i).write != Stored then m' else Pulled(h, m', delta, io, i + 1)
  }

  lemma {:induction false} PulledIsApplied(h: HashFn, m: Mirror, delta: seq<Record>, io: nat -> Io, i: nat)
    requires i <= |delta|
    ensures Pulled(h, m, delta, io, i).recs == Apply(h, m.recs, delta, io, i).recs
    decreases |delta| - i
  {
    if i < |delta| {
      var m' := AppendOnce(h, m, AttemptOf(delta[i], io(i)));
      if !Wanted(m.recs, delta[i]) { PulledIsApplied(h, m, delta, io, i + 1); }
      else if io(i).write == Stored { PulledIsApplied(h, m', delta, io, i + 1); }
    }
  }

  /** One event of a store's life: an attempted append, or a reopening of its file. */
  datatype LogEvent = Append(attempt: Attempt) | Reopen

  function LogStep(h: HashFn, m: Mirror, e: LogEvent): Mirror {
    match e
    case Append(a) => AppendOnce(h, m, a)
    case Reopen => Mirror(m.disk, m.disk)
  }

  /** Memory and file of a store that began with no file. */
  function LogRun(h: HashFn, es: seq<LogEvent>): Mirror {
    if es == [] then Mirror([], []) else LogStep(h, LogRun(h, es[..|es| - 1]), es[|es| - 1])
  }

  predicate Lands(e: LogEvent) {
    e.Append? && e.attempt.io.write == Landed
  }

  /** The append reaches the file, reported or not. */
  predicate Arrives(e: LogEvent) {
    e.Append? && e.attempt.io.write != Refused
  }

  /** Event `i` left a line the store does not know of, and nothing has reopened the file since. */
  predicate AheadAt(es: seq<LogEvent>, i: nat) {
    i < |es| && Lands(es[i]) && forall k :: i < k < |es| ==> es[k] != Reopen
  }

  /** The file is ahead of memory. */
  ghost predicate Ahead(es: seq<LogEvent>) {
    exists i: nat :: AheadAt(es, i)
  }

  /** Event `j` appends to a file that is ahead of memory. */
  ghost predicate ForksAt(es: seq<LogEvent>, j: nat) {
    j < |es| && Arrives(es[j]) && Ahead(es[..j])
  }

  ghost predicate Forked(es: seq<LogEvent>) {
    exists j: nat :: ForksAt(es, j)
  }

  /** Event `k` reopens a forked file. */
  ghost predicate LoadsFork(es: seq<LogEvent>, k: nat) {
    k < |es| && es[k] == Reopen && Forked(es[..k])
  }

  ghost predicate LoadedFork(es: seq<LogEvent>) {
    exists k: nat :: LoadsFork(es, k)
  }

  lemma {:induction false} AheadSnoc(es: seq<LogEvent>, e: LogEvent)
    ensures Ahead(es + [e]) <==> e != Reopen && (Ahead(es) || Lands(e))
  {
    var all, n := es + [e], |es|;
    assert all[n] == e;
    if Ahead(all) {
      var i: nat :| AheadAt(all, i);
      if i < n {
        assert all[n] != Reopen;
        assert forall k :: i < k < n ==> es[k] == all[k];
        assert AheadAt(es, i);
      }
    }
    if e != Reopen && Ahead(es) {
      var i: nat :| AheadAt(es, i);
      assert AheadAt(all, i);
    }
    if e != Reopen && Lands(e) { assert AheadAt(all, n); }
  }

  lemma {:induction false} ForkedSnoc(es: seq<LogEvent>, e: LogEvent)
    ensures Forked(es + [e]) <==> Forked(es) || (Arrives(e) && Ahead(es))
  {
    var all, n := es + [e], |es|;
    assert all[n] == e && all[..n] == es;
    if Forked(all) {
      var j: nat :| ForksAt(all, j);
      if j < n {
        assert all[..j] == es[..j];
        assert ForksAt(es, j);
      }
    }
    if Forked(es) {
      var j: nat :| ForksAt(es, j);
      assert all[..j] == es[..j];
      assert ForksAt(all, j);
    }
    if Arrives(e) && Ahead(es) { assert ForksAt(all, n); }
  }

  lemma {:induction false} LoadedSnoc(es: seq<LogEvent>, e: LogEvent)
    ensures LoadedFork(es + [e]) <==> LoadedFork(es) || (e == Reopen && Forked(es))
  {
    var all, n := es + [e], |es|;
    assert all[n] == e && all[..n] == es;
    if LoadedFork(all) {
      var k: nat :| LoadsFork(all, k);
      if k < n {
        assert all[..k] == es[..k];
        assert LoadsFork(es, k);
      }
    }
    if LoadedFork(es) {
      var k: nat :| LoadsFork(es, k);
      assert all[..k] == es[..k];
      assert LoadsFork(all, k);
    }
    if e == Reopen && Forked(es) { assert LoadsFork(all, n); }
  }

  lemma {:induction false} LoadedWasForked(es: seq<LogEvent>)
    requires LoadedFork(es)
    ensures Forked(es)
  {
    var k: nat :| LoadsFork(es, k);
    var j: nat :| ForksAt(es[..k], j);
    assert es[..k][..j] == es[..j];
    assert ForksAt(es, j);
  }

  lemma {:induction false} LogRunSnoc(h: HashFn, es: seq<LogEvent>, e: LogEvent)
    ensures LogRun(h, es + [e]) == LogStep(h, LogRun(h, es), e)
  {
    assert (es + [e])[..|es|] == es;
  }

  /** What the fates of the writes say of memory and file. */
  ghost predicate FatesTell(h: HashFn, es: seq<LogEvent>) {
    var m := LogRun(h, es);
    && (Linked(h, m.disk) <==> !Forked(es))
    && (Linked(h, m.recs) <==> !LoadedFork(es))
    && (if Ahead(es) then |m.disk| > |m.recs| else m.disk == m.recs)
    && (!Forked(es) ==> m.recs <= m.disk)
  }

  lemma {:induction false} UnlinkedStays(h: HashFn, recs: seq<Record>, r: Record)
    requires !Linked(h, recs)
    ensures !Linked(h, recs + [r])
  {
    LinkedSnoc(h, recs, r);
  }

  lemma {:induction false} StampLinks(h: HashFn, m: Mirror, a: Attempt)
    requires Linked(h, m.recs) && Linked(h, m.disk) && m.recs <= m.disk
    ensures var r := Stamp(h, m.recs, a.op, a.id, a.fact, a.io.time);
            Linked(h, m.recs + [r]) && (Linked(h, m.disk + [r]) <==> m.disk == m.recs)
  {
    var r := Stamp(h, m.recs, a.op, a.id, a.fact, a.io.time);
    StampKeepsLinked(h, m.recs, a.op, a.id, a.fact, a.io.time);
    LinkedLastSeq(h, m.recs);
    LinkedSnoc(h, m.disk, r);
  }

  lemma {:induction false} FatesStep(h: HashFn, es: seq<LogEvent>, e: LogEvent)
    requires FatesTell(h, es)
    ensures FatesTell(h, es + [e])
  {
    AheadSnoc(es, e);
    ForkedSnoc(es, e);
    LoadedSnoc(es, e);
    LogRunSnoc(h, es, e);
    var m := LogRun(h, es);
    if LoadedFork(es) { LoadedWasForked(es); }
    if e.Append? {
      var a := e.attempt;
      var r := Stamp(h, m.recs, a.op, a.id, a.fact, a.io.time);
      if Forked(es) { UnlinkedStays(h, m.disk, r); } else { StampLinks(h, m, a); }
      if LoadedFork(es) {
        UnlinkedStays(h, m.recs, r);
      } else {
        StampKeepsLinked(h, m.recs, a.op, a.id, a.fact, a.io.time);
      }
    }
  }

  /** Over every life of a store, reopenings included: the file verifies exactly when no append
      reached it while it was ahead of memory, that is, after a failed append that had reached it
      and before a reopening; memory verifies exactly when it was never loaded from such a file.
      While the file verifies, memory is a prefix of it. */
  lemma {:induction false} FileVerifiesIff(h: HashFn, es: seq<LogEvent>)
    ensures Linked(h, LogRun(h, es).disk) <==> !Forked(es)
    ensures Linked(h, LogRun(h, es).recs) <==> !LoadedFork(es)
    ensures Ahead(es) ==> |LogRun(h, es).disk| > |LogRun(h, es).recs|
    ensures !Forked(es) ==> LogRun(h, es).recs <= LogRun(h, es).disk
    ensures !Ahead(es) ==> LogRun(h, es).recs == LogRun(h, es).disk
  {
    FatesHold(h, es);
  }

  lemma {:induction false} FatesHold(h: HashFn, es: seq<LogEvent>)
    ensures FatesTell(h, es)
    decreases |es|
  {
    if es != [] {
      var n := |es| - 1;
      FatesHold(h, es[..n]);
      FatesStep(h, es[..n], es[n]);
      assert es == es[..n] + [es[n]];
    }
  }

  // ---------------------------------------------------------------- reopening and history

  predicate Stores(e: LogEvent) {
    e.Append? && e.attempt.io.write == Stored
  }

  /** Event `j` was stored while the file was ahead of memory, and nothing has reopened it since. */
  ghost predicate DisplacesAt(es: seq<LogEvent>, j: nat) {
    && j < |es| && Stores(es[j]) && Ahead(es[..j])
    && forall k :: j < k < |es| ==> es[k] != Reopen
  }

  /** A record the store knows of sits in the file behind one it does not know of. */
  ghost predicate Displaced(es: seq<LogEvent>) {
    exists j: nat :: DisplacesAt(es, j)
  }

  lemma {:induction false} DisplacedSnoc(es: seq<LogEvent>, e: LogEvent)
    ensures Displaced(es + [e]) <==> e != Reopen && (Displaced(es) || (Stores(e) && Ahead(es)))
  {
    var all, n := es + [e], |es|;
    assert all[n] == e && all[..n] == es;
    if Displaced(all) {
      var j: nat :| DisplacesAt(all, j);
      if j < n {
        assert all[n] != Reopen && all[..j] == es[..j];
        assert forall k :: j < k < n ==> es[k] == all[k];
        assert DisplacesAt(es, j);
      }
    }
    if e != Reopen && Displaced(es) {
      var j: nat :| DisplacesAt(es, j);
      assert all[..j] == es[..j];
      assert DisplacesAt(all, j);
    }
    if Stores(e) && Ahead(es) { assert DisplacesAt(all, n); }
  }

  /** Memory is a prefix of the file, and what follows carries the next sequence number. */
  ghost predicate InPlace(m: Mirror) {
    m.recs <= m.disk && forall i :: |m.recs| <= i < |m.disk| ==> m.disk[i].seqNo == |m.recs| + 1
  }

  /** A read of the file as of some known sequence number looks at more records than that. */
  ghost predicate Crowded(m: Mirror) {
    exists n: nat :: 1 <= n <= |m.recs| && |UpTo(m.disk, n)| > n
  }

  lemma {:induction false} InPlaceReads(h: HashFn, m: Mirror, n: int)
    requires Linked(h, m.recs) && InPlace(m) && 1 <= n <= |m.recs|
    ensures UpTo(m.disk, n) == m.recs[..n] == UpTo(m.recs, n)
  {
    forall i: nat | i < |m.recs| ensures m.recs[i].seqNo == i + 1 { assert LinkedAt(h, m.recs, i); }
    assert forall i :: 0 <= i < |m.recs| ==> m.disk[i] == m.recs[i];
    UpToSplit(m.disk, n, n);
    UpToSplit(m.recs, n, n);
    assert m.disk[..n] == m.recs[..n];
  }

  lemma {:induction false} UpToGrows(recs: seq<Record>, r: Record, n: int)
    ensures |UpTo(recs + [r], n)| >= |UpTo(recs, n)|
  {
    if recs != [] && recs[0].seqNo <= n {
      UpToGrows(recs[1..], r, n);
      assert (recs + [r])[1..] == recs[1..] + [r];
    }
  }

  /** Storing behind an unknown line crowds the sequence number both carry. */
  lemma {:induction false} StoringCrowds(h: HashFn, m: Mirror, a: Attempt)
    requires Linked(h, m.recs) && InPlace(m) && |m.disk| > |m.recs| && a.io.write == Stored
    ensures Crowded(AppendOnce(h, m, a))
  {
    var m', n := AppendOnce(h, m, a), |m.recs| + 1;
    LinkedLastSeq(h, m.recs);
    forall i: nat | i < |m.recs| ensures m.disk[i].seqNo == i + 1 {
      assert LinkedAt(h, m.recs, i) && m.disk[i] == m.recs[i];
    }
    assert forall i :: 0 <= i < |m'.disk| ==> m'.disk[i].seqNo <= n;
    UpToSplit(m'.disk, n, |m'.disk|);
    assert n <= |m'.recs| && |UpTo(m'.disk, n)| > n;
  }

  lemma {:induction false} CrowdedStays(h: HashFn, m: Mirror, a: Attempt)
    requires Crowded(m)
    ensures Crowded(AppendOnce(h, m, a))
  {
    var n: nat :| 1 <= n <= |m.recs| && |UpTo(m.disk, n)| > n;
    UpToGrows(m.disk, Stamp(h, m.recs, a.op, a.id, a.fact, a.io.time), n);
    assert 1 <= n <= |AppendOnce(h, m, a).recs| && |UpTo(AppendOnce(h, m, a).disk, n)| > n;
  }

  lemma {:induction false} PlacesHold(h: HashFn, es: seq<LogEvent>)
    requires !LoadedFork(es)
    ensures if Displaced(es) then Crowded(LogRun(h, es)) else InPlace(LogRun(h, es))
    decreases |es|
  {
    if es != [] {
      var n := |es| - 1;
      var before, e := es[..n], es[n];
      assert es == before + [e];
      LoadedSnoc(before, e);
      PlacesHold(h, before);
      DisplacedSnoc(before, e);
      LogRunSnoc(h, before, e);
      FatesHold(h, before);
      var m := LogRun(h, before);
      LinkedLastSeq(h, m.recs);
      if e.Append? {
        if Displaced(before) { CrowdedStays(h, m, e.attempt); }
        else if Stores(e) && Ahead(before) { StoringCrowds(h, m, e.attempt); }
      }
    }
  }

  /** What every read as of a known sequence number looks at survives reopening the file. */
  ghost predicate HistorySurvives(m: Mirror) {
    forall n :: 1 <= n <= |m.recs| ==> UpTo(m.disk, n) == UpTo(m.recs, n)
  }

  /** Reopening the file of a store whose memory verifies leaves every earlier read looking at the
      same records if and only if no append was stored while the file was ahead of memory. */
  lemma {:induction false} HistorySurvivesIff(h: HashFn, es: seq<LogEvent>)
    requires !LoadedFork(es)
    ensures HistorySurvives(LogRun(h, es)) <==> !Displaced(es)
  {
    var m := LogRun(h, es);
    PlacesHold(h, es);
    FatesHold(h, es);
    if Displaced(es) {
      var n: nat :| 1 <= n <= |m.recs| && |UpTo(m.disk, n)| > n;
      TimeTravelStable(h, m.recs, m.recs, n);
      assert UpTo(m.disk, n) != UpTo(m.recs, n);
    } else {
      forall n | 1 <= n <= |m.recs| ensures UpTo(m.disk, n) == UpTo(m.recs, n) { InPlaceReads(h, m, n); }
    }
  }

  // ---------------------------------------------------------------- the shortest cases

  function Once(id: string, f: Fact, w: Write): LogEvent {
    Append(Attempt(ASSERT, id, f, Io("", w)))
  }

  /** An append that failed but reached the file, and one that was stored: the file no longer
      verifies although memory does; reopening it loads a log that does not verify, and a read as
      of 1 then looks at both. */
  lemma {:induction false} FileCanFork(h: HashFn, f: Fact)
    ensures var es := [Once("t_1", f, Landed), Once("t_2", f, Stored)];
            && Linked(h, LogRun(h, es).recs) && !Linked(h, LogRun(h, es).disk)
            && !Linked(h, LogRun(h, es + [Reopen]).recs)
            && !HistorySurvives(LogRun(h, es))
  {
    var one, two := [Once("t_1", f, Landed)], [Once("t_1", f, Landed), Once("t_2", f, Stored)];
    assert one == [] + [Once("t_1", f, Landed)] && two == one + [Once("t_2", f, Stored)];
    AheadSnoc([], Once("t_1", f, Landed));
    ForkedSnoc([], Once("t_1", f, Landed));
    ForkedSnoc(one, Once("t_2", f, Stored));
    LoadedSnoc(one, Once("t_2", f, Stored));
    LoadedSnoc([], Once("t_1", f, Landed));
    LoadedSnoc(two, Reopen);
    DisplacedSnoc(one, Once("t_2", f, Stored));
    FileVerifiesIff(h, two);
    FileVerifiesIff(h, two + [Reopen]);
    HistorySurvivesIff(h, two);
  }

  /** With a reopening between the two, memory and file verify and agree. */
  lemma {:induction false} ReopeningHeals(h: HashFn, f: Fact)
    ensures var m := LogRun(h, [Once("t_1", f, Landed), Reopen, Once("t_2", f, Stored)]);
            Linked(h, m.recs) && Linked(h, m.disk) && m.recs == m.disk
  {
    var a, b := Once("t_1", f, Landed), Once("t_2", f, Stored);
    assert [a, Reopen] == [a] + [Reopen] && [a, Reopen, b] == [a, Reopen] + [b] && [a] == [] + [a];
    ForkedSnoc([], a); ForkedSnoc([a], Reopen); ForkedSnoc([a, Reopen], b);
    AheadSnoc([a], Reopen); AheadSnoc([a, Reopen], b);
    LoadedSnoc([], a); LoadedSnoc([a], Reopen); LoadedSnoc([a, Reopen], b);
    FileVerifiesIff(h, [a, Reopen, b]);
  }
}
