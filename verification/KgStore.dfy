/** The store that owns a log: every entry point that reads or extends the chain. */
module KgStore {
  import opened Common
  import opened KgLog

  predicate Matches(r: Record, s: string, p: string, o: string) {
    (s == "" || r.fact.s == s) && (p == "" || r.fact.p == p) && (o == "" || r.fact.o == o)
  }

  predicate Touches(r: Record, node: string) {
    r.fact.s == node || r.fact.o == node
  }

  function Matching(recs: seq<Record>, s: string, p: string, o: string): seq<Record> {
    if recs == [] then []
    else
      var n := |recs| - 1;
      Matching(recs[..n], s, p, o) + (if Matches(recs[n], s, p, o) then [recs[n]] else [])
  }

  function Touching(recs: seq<Record>, node: string): seq<Record> {
    if recs == [] then []
    else
      var n := |recs| - 1;
      Touching(recs[..n], node) + (if Touches(recs[n], node) then [recs[n]] else [])
  }

  /** A query answers with exactly the live facts that match, one record an id. */
  lemma {:induction false} MatchingExact(recs: seq<Record>, s: string, p: string, o: string)
    ensures forall r :: r in Matching(recs, s, p, o) <==>
              r in recs && (s == "" || r.fact.s == s) && (p == "" || r.fact.p == p) && (o == "" || r.fact.o == o)
  {
    if recs != [] {
      var n := |recs| - 1;
      MatchingExact(recs[..n], s, p, o);
      assert recs == recs[..n] + [recs[n]];
    }
  }

  lemma {:induction false} TouchingExact(recs: seq<Record>, node: string)
    ensures forall r :: r in Touching(recs, node) <==> r in recs && (r.fact.s == node || r.fact.o == node)
  {
    if recs != [] {
      var n := |recs| - 1;
      TouchingExact(recs[..n], node);
      assert recs == recs[..n] + [recs[n]];
    }
  }

  /** A store without a path never meets a write failure. */
  function Effective(persistent: bool, io: Io): Io {
    if persistent then io else io.(write := Stored)
  }

  function EffectiveAll(persistent: bool, io: nat -> Io): nat -> Io {
    (i: nat) => Effective(persistent, io(i))
  }

  /** The first loop of the active fold: tombstones, last assertions and first-assertion order
      of the records a read as of `n` looks at. */
  method FoldTo(recs: seq<Record>, n: int)
    returns (k: nat, deleted: set<string>, asserts: map<string, Record>, order: seq<string>)
    ensures k <= |recs| && recs[..k] == UpTo(recs, n)
    ensures deleted == Deleted(recs[..k]) && order == FirstOrder(recs[..k])
    ensures asserts.Keys == Asserted(recs[..k])
    ensures forall id :: id in asserts ==> asserts[id] == LastAssert(recs[..k], id)
  {
    k, deleted, asserts, order := 0, {}, map[], [];
    ghost var seen: seq<Record> := [];
    while k < |recs| && recs[k].seqNo <= n
      invariant k <= |recs| && seen == recs[..k]
      invariant forall i :: 0 <= i < k ==> recs[i].seqNo <= n
      invariant Folded(seen, deleted, asserts) && order == FirstOrder(seen)
    {
      var r := recs[k];
      FoldedSnoc(seen, deleted, asserts, r);
      assert (seen + [r])[..k] == seen;
      if r.op == DELETE {
        deleted := deleted + {r.id};
      } else if r.op == ASSERT {
        if r.id !in asserts { order := order + [r.id]; }
        asserts := asserts[r.id := r];
      }
      seen := seen + [r];
      k := k + 1;
    }
    UpToSplit(recs, n, k);
  }

  method KeysOf(recs: seq<Record>) returns (have: set<string>)
    ensures have == Keys(recs)
  {
    have := {};
    for i := 0 to |recs|
      invariant have == Keys(recs[..i])
    {
      assert recs[..i + 1] == recs[..i] + [recs[i]];
      KeysSnoc(recs[..i], recs[i]);
      have := have + {Key(recs[i])};
    }
    assert recs[..|recs|] == recs;
  }

  class Store {
    const h: HashFn
    const persistent: bool
    var recs: seq<Record>
    var seqNo: int
    var prev: string
    var disk: seq<Record>

    ghost predicate Valid()
      reads this
    {
      seqNo == LastSeq(recs) && prev == LastHash(recs)
    }

    /** Loads whatever the file holds, verifying or not. */
    constructor Open(h: HashFn, persistent: bool, file: seq<Record>)
      ensures Valid() && this.h == h && this.persistent == persistent
      ensures recs == if persistent then file else []
      ensures disk == file
    {
      this.h, this.persistent, disk := h, persistent, file;
      recs, seqNo, prev := [], 0, "";
      new;
      var i := 0;
      while persistent && i < |file|
        invariant 0 <= i <= |file| && Valid() && disk == file
        invariant recs == if persistent then file[..i] else []
        decreases |file| - i
      {
        recs, seqNo, prev := recs + [file[i]], file[i].seqNo, file[i].hash;
        i := i + 1;
      }
    }

    method AppendRecord(op: string, id: string, fact: Fact, io: Io) returns (r: Record, ok: bool)
      requires Valid()
      modifies this
      ensures Valid()
      ensures ok == (Effective(persistent, io).write == Stored)
      ensures var m := AppendOnce(h, Mirror(old(recs), old(disk)), Attempt(op, id, fact, Effective(persistent, io)));
              recs == m.recs && disk == if persistent then m.disk else old(disk)
      ensures ok ==> recs == old(recs) + [r]
    {
      seqNo := seqNo + 1;
      r := Record(seqNo, op, id, fact, io.time, prev, "");
      r := r.(hash := ChainHash(h, r));
      assert r == Stamp(h, recs, op, id, fact, io.time);
      if persistent {
        match io.write {
          case Refused =>
            seqNo := seqNo - 1;
            return r, false;
          case Landed =>
            disk := disk + [r];
            seqNo := seqNo - 1;
            return r, false;
          case Stored =>
            disk := disk + [r];
        }
      }
      prev := r.hash;
      recs := recs + [r];
      ok := true;
    }

    /** `id` stands for the random id drawn by the source. */
    method AssertProv(id: string, fact: Fact, io: Io) returns (ok: bool)
      requires Valid()
      modifies this
      ensures Valid()
      ensures ok == (fact.s != "" && fact.p != "" && fact.o != "" && Effective(persistent, io).write == Stored)
      ensures recs == if ok then old(recs) + [Stamp(h, old(recs), ASSERT, id, fact, io.time)] else old(recs)
      ensures disk == if persistent && fact.s != "" && fact.p != "" && fact.o != "" && io.write != Refused
                      then old(disk) + [Stamp(h, old(recs), ASSERT, id, fact, io.time)] else old(disk)
    {
      if fact.s == "" || fact.p == "" || fact.o == "" { return false; }
      var r;
      r, ok := AppendRecord(ASSERT, id, fact, io);
    }

    method Delete(id: string, peer: string, io: Io) returns (ok: bool)
      requires Valid()
      modifies this
      ensures Valid()
      ensures ok == (Effective(persistent, io).write == Stored)
      ensures var r := Stamp(h, old(recs), DELETE, id, Fact("", "", "", peer, "", "", ""), io.time);
              recs == if ok then old(recs) + [r] else old(recs)
      ensures var r := Stamp(h, old(recs), DELETE, id, Fact("", "", "", peer, "", "", ""), io.time);
              disk == if persistent && io.write != Refused then old(disk) + [r] else old(disk)
    {
      var r;
      r, ok := AppendRecord(DELETE, id, Tombstone(peer), io);
    }

    method ActiveAsOf(asOf: int) returns (out: seq<Record>)
      requires Valid()
      ensures out == Active(UpTo(recs, if asOf <= 0 then LastSeq(recs) else asOf))
      ensures asOf <= 0 && Linked(h, recs) ==> out == Active(recs)
    {
      if Linked(h, recs) { UpToAll(h, recs); }
      var n := if asOf <= 0 then seqNo else asOf;
      var k, deleted, asserts, order := FoldTo(recs, n);
      ghost var seen := recs[..k];
      FirstOrderIsAsserted(seen);
      out := [];
      for i := 0 to |order|
        invariant out == Survivors(seen, order[..i])
      {
        assert order[..i + 1][..i] == order[..i];
        if order[i] !in deleted { out := out + [asserts[order[i]]]; }
      }
      assert order[..|order|] == order;
    }

    method Query(s: string, p: string, o: string, asOf: int) returns (out: seq<Record>)
      requires Valid()
      ensures out == Matching(Active(UpTo(recs, if asOf <= 0 then LastSeq(recs) else asOf)), s, p, o)
    {
      var active := ActiveAsOf(asOf);
      out := [];
      for i := 0 to |active|
        invariant out == Matching(active[..i], s, p, o)
      {
        assert active[..i + 1][..i] == active[..i];
        if Matches(active[i], s, p, o) { out := out + [active[i]]; }
      }
      assert active[..|active|] == active;
    }

    method Neighbors(node: string, asOf: int) returns (out: seq<Record>)
      requires Valid()
      ensures out == Touching(Active(UpTo(recs, if asOf <= 0 then LastSeq(recs) else asOf)), node)
    {
      var active := ActiveAsOf(asOf);
      out := [];
      for i := 0 to |active|
        invariant out == Touching(active[..i], node)
      {
        assert active[..i + 1][..i] == active[..i];
        if Touches(active[i], node) { out := out + [active[i]]; }
      }
      assert active[..|active|] == active;
    }

    method Verify() returns (ok: bool)
      ensures ok <==> Linked(h, recs)
    {
      var last := "";
      for i := 0 to |recs|
        invariant last == LastHash(recs[..i])
        invariant forall k: nat :: k < i ==> LinkedAt(h, recs, k)
      {
        var r := recs[i];
        assert recs[..i + 1][..i] == recs[..i];
        if r.seqNo != i + 1 || r.prevHash != last || ChainHash(h, r) != r.hash {
          assert !LinkedAt(h, recs, i);
          return false;
        }
        last := r.hash;
      }
      ok := true;
    }

    method DeltaFrom(since: int) returns (out: seq<Record>)
      ensures out == DeltaSince(recs, since)
    {
      out := [];
      for i := 0 to |recs|
        invariant out == DeltaSince(recs[..i], since)
      {
        assert recs[..i + 1][..i] == recs[..i];
        if recs[i].seqNo > since { out := out + [recs[i]]; }
      }
      assert recs[..|recs|] == recs;
    }

    method ApplyDelta(delta: seq<Record>, io: nat -> Io) returns (applied: nat, ok: bool)
      requires Valid()
      modifies this
      ensures Valid()
      ensures Applied(recs, ok) == Apply(h, old(recs), delta, EffectiveAll(persistent, io), 0)
      ensures old(recs) <= recs && applied == |recs| - |old(recs)|
      ensures ok && persistent ==> disk == old(disk) + recs[|old(recs)|..]
      ensures !persistent ==> ok && disk == old(disk)
      ensures persistent ==> Mirror(recs, disk) == Pulled(h, Mirror(old(recs), old(disk)), delta, io, 0)
    {
      var have := KeysOf(recs);
      applied := 0;
      ghost var eff := EffectiveAll(persistent, io);
      for i := 0 to |delta|
        invariant Valid() && have == Keys(recs)
        invariant old(recs) <= recs && applied == |recs| - |old(recs)|
        invariant Apply(h, old(recs), delta, eff, 0) == Apply(h, recs, delta, eff, i)
        invariant disk == if persistent then old(disk) + recs[|old(recs)|..] else old(disk)
        invariant persistent ==>
                    Pulled(h, Mirror(old(recs), old(disk)), delta, io, 0) == Pulled(h, Mirror(recs, disk), delta, io, i)
      {
        var r := delta[i];
        if !WellFormed(r) || Key(r) in have { continue; }
        ghost var before := recs;
        var _, stored := AppendRecord(r.op, r.id, r.fact, io(i));
        if !stored { return applied, false; }
        KeysSnoc(before, Copy(h, before, r, io(i).time));
        have := have + {Key(r)};
        applied := applied + 1;
      }
      ok := true;
    }
  }

  /** Opens a file by its non-empty lines, `None` standing for one that does not parse: refused if
      there is one, otherwise every line is a record, in order. */
  method OpenFile(h: HashFn, lines: seq<Option<Record>>) returns (store: Option<Store>)
    ensures store.None? <==> None in lines
    ensures store.Some? ==> fresh(store.value) && store.value.Valid() && store.value.h == h && store.value.persistent
    ensures store.Some? ==> |store.value.recs| == |lines| && store.value.disk == store.value.recs
                            && forall i :: 0 <= i < |lines| ==> lines[i] == Some(store.value.recs[i])
  {
    var recs: seq<Record> := [];
    for i := 0 to |lines|
      invariant |recs| == i && forall k :: 0 <= k < i ==> lines[k] == Some(recs[k])
    {
      if lines[i].None? { return None; }
      recs := recs + [lines[i].value];
    }
    var s := new Store.Open(h, true, recs);
    store := Some(s);
  }

  function Tombstone(peer: string): Fact {
    Fact("", "", "", peer, "", "", "")
  }
}
