/** Public connections, data connections and timeouts racing for the beacon's slots, in every
    interleaving of their critical sections and channel operations. */
module Rendezvous {
  import opened Common
  import opened Beacon

  /** Where the goroutine of a public connection stands. `Turned` is a connection dropped because
      a budget was exhausted. */
  datatype Phase = Turned | Opening | Waiting | Draining | Spliced(data: nat) | Closed

  /** `ch` is the one-place hand-over channel; `taken` counts how often the slot was claimed. */
  datatype Pub<L> = Pub(host: L, phase: Phase, ch: Option<nat>, taken: nat)

  /** Where a data connection stands: about to be sent on a channel, in it, spliced, or closed. */
  datatype Data = Sending(to: nat) | Handed(to: nat) | Joined(to: nat) | Dropped

  datatype World<L> = World(slots: Slots<L>, pubs: map<nat, Pub<L>>, datas: map<nat, Data>)

  datatype Event<L> =
    | Arrive(id: nat, host: L)
    | Opened(id: nat)
    | OpenFailed(id: nat)
    | TimeOut(id: nat)
    | Receive(id: nat)
    | Drain(id: nat)
    | DataConn(data: nat, id: nat)
    | Send(data: nat)

  predicate In<L(==)>(w: World<L>, id: nat, p: Phase) {
    id in w.pubs && w.pubs[id].phase == p
  }

  function Move<L(==)>(w: World<L>, id: nat, p: Phase): World<L>
    requires id in w.pubs
  {
    w.(pubs := w.pubs[id := w.pubs[id].(phase := p)])
  }

  /** Claims a slot if it is still pending. */
  function Take<L(==)>(w: World<L>, id: nat): World<L> {
    if id !in w.slots.pending || id !in w.pubs then w
    else w.(slots := Release(w.slots, id), pubs := w.pubs[id := w.pubs[id].(taken := w.pubs[id].taken + 1)])
  }

  function Next<L(==)>(w: World<L>, e: Event<L>): World<L> {
    match e
    case Arrive(id, host) =>
      if id in w.pubs then w
      else if Room(w.slots, host) then
        w.(slots := Reserve(w.slots, id, host), pubs := w.pubs[id := Pub(host, Opening, None, 0)])
      else w.(pubs := w.pubs[id := Pub(host, Turned, None, 0)])
    case Opened(id) =>
      if In(w, id, Opening) then Move(w, id, Waiting) else w
    case OpenFailed(id) =>
      if In(w, id, Opening) then Move(Take(w, id), id, Closed) else w
    case TimeOut(id) =>
      if !In(w, id, Waiting) then w
      else if id in w.slots.pending then Move(Take(w, id), id, Closed)
      else Move(w, id, Draining)
    case Receive(id) =>
      if !In(w, id, Waiting) || w.pubs[id].ch.None? then w
      else
        var d := w.pubs[id].ch.value;
        w.(pubs := w.pubs[id := w.pubs[id].(phase := Spliced(d), ch := None)], datas := w.datas[d := Joined(id)])
    case Drain(id) =>
      if !In(w, id, Draining) || w.pubs[id].ch.None? then w
      else
        var d := w.pubs[id].ch.value;
        w.(pubs := w.pubs[id := w.pubs[id].(phase := Closed, ch := None)], datas := w.datas[d := Dropped])
    case DataConn(d, id) =>
      if d in w.datas then w
      else if id in w.slots.pending then Take(w, id).(datas := w.datas[d := Sending(id)])
      else w.(datas := w.datas[d := Dropped])
    case Send(d) =>
      if d !in w.datas || !w.datas[d].Sending? || w.datas[d].to !in w.pubs || w.pubs[w.datas[d].to].ch.Some? then w
      else
        var id := w.datas[d].to;
        w.(pubs := w.pubs[id := w.pubs[id].(ch := Some(d))], datas := w.datas[d := Handed(id)])
  }

  // ---------------------------------------------------------------- what every step keeps

  predicate HeadsFor(x: Data, id: nat) {
    x == Sending(id) || x == Handed(id)
  }

  ghost predicate Coming<L>(w: World<L>, id: nat) {
    exists d :: d in w.datas && HeadsFor(w.datas[d], id)
  }

  ghost predicate PubOk<L>(w: World<L>, id: nat)
    requires id in w.pubs
  {
    var p := w.pubs[id];
    && (p.ch.Some? ==> p.ch.value in w.datas && w.datas[p.ch.value] == Handed(id))
    && (p.phase.Spliced? ==> p.phase.data in w.datas && w.datas[p.phase.data] == Joined(id))
    && (if id in w.slots.pending then
          w.slots.pending[id] == p.host && (p.phase == Opening || p.phase == Waiting) && p.taken == 0
        else
          && p.taken == (if p.phase == Turned then 0 else 1)
          && (p.phase == Opening || p.phase == Waiting || p.phase == Draining ==> Coming(w, id)))
  }

  ghost predicate DataOk<L>(w: World<L>, d: nat)
    requires d in w.datas
  {
    var x := w.datas[d];
    && (x.Sending? ==> x.to in w.pubs && w.pubs[x.to].ch.None?)
    && (x.Handed? ==> x.to in w.pubs && w.pubs[x.to].ch == Some(d))
    && (x.Sending? || x.Handed? ==>
         x.to !in w.slots.pending && w.pubs[x.to].phase != Turned && !w.pubs[x.to].phase.Spliced?)
    && (x.Joined? ==> x.to in w.pubs && w.pubs[x.to].phase == Spliced(d))
    && (x.Sending? || x.Handed? ==> forall e :: e in w.datas && HeadsFor(w.datas[e], x.to) ==> e == d)
  }

  ghost predicate Ok<L(!new)>(w: World<L>) {
    && Budgeted(w.slots)
    && (forall id :: id in w.slots.pending ==> id in w.pubs)
    && (forall id :: id in w.pubs ==> PubOk(w, id))
    && (forall d :: d in w.datas ==> DataOk(w, d))
  }

  /** A connection whose slot is pending has nothing coming yet. */
  lemma {:induction false} PendingNotComing<L(!new)>(w: World<L>, id: nat)
    requires Ok(w) && id in w.slots.pending
    ensures !Coming(w, id)
  {
    forall d | d in w.datas ensures !HeadsFor(w.datas[d], id) { assert DataOk(w, d); }
  }

  lemma {:induction false} ArriveKeeps<L(!new)>(w: World<L>, id: nat, host: L)
    requires Ok(w)
    ensures Ok(Next(w, Arrive(id, host)))
  {
    var w' := Next(w, Arrive(id, host));
    if id !in w.pubs {
      if Room(w.slots, host) { ReserveBudgeted(w.slots, id, host); }
      forall i | i in w'.pubs ensures PubOk(w', i) {
        if i != id { assert PubOk(w, i); Same(w, w', i); }
      }
      forall d | d in w'.datas ensures DataOk(w', d) { assert DataOk(w, d); }
    }
  }

  /** What is coming depends on the data connections only. */
  lemma {:induction false} Same<L>(w: World<L>, w': World<L>, id: nat)
    requires w.datas == w'.datas
    ensures Coming(w, id) <==> Coming(w', id)
  {
  }

  /** A handler that is still entitled to its slot moves on, or closes having released it. */
  lemma {:induction false} MoveKeeps<L(!new)>(w: World<L>, id: nat, p: Phase)
    requires Ok(w) && id in w.pubs && (w.pubs[id].phase == Opening || w.pubs[id].phase == Waiting)
    requires p == Waiting || (p == Draining && id !in w.slots.pending) || (p == Closed && id !in w.slots.pending)
    ensures Ok(Move(w, id, p))
  {
    var w' := Move(w, id, p);
    forall i | i in w'.pubs ensures PubOk(w', i) { assert PubOk(w, i); Same(w, w', i); }
    forall d | d in w'.datas ensures DataOk(w', d) { assert DataOk(w, d); }
  }

  /** Releasing a pending slot and closing its handler. */
  lemma {:induction false} CloseKeeps<L(!new)>(w: World<L>, id: nat)
    requires Ok(w) && id in w.slots.pending
    ensures id in w.pubs && Ok(Move(Take(w, id), id, Closed))
  {
    assert PubOk(w, id);
    ReleaseBudgeted(w.slots, id);
    PendingNotComing(w, id);
    var w' := Move(Take(w, id), id, Closed);
    forall i | i in w'.pubs ensures PubOk(w', i) { assert PubOk(w, i); Same(w, w', i); }
    forall d | d in w'.datas ensures DataOk(w', d) {
      assert DataOk(w, d);
      assert HeadsFor(w.datas[d], id) ==> Coming(w, id);
    }
  }

  /** Taking the data connection off the channel, to splice or to close it. */
  lemma {:induction false} TakeOffKeeps<L(!new)>(w: World<L>, id: nat, splice: bool)
    requires Ok(w) && id in w.pubs && w.pubs[id].ch.Some?
    requires w.pubs[id].phase == if splice then Waiting else Draining
    ensures var d := w.pubs[id].ch.value;
            Ok(w.(pubs := w.pubs[id := w.pubs[id].(phase := if splice then Spliced(d) else Closed, ch := None)],
                  datas := w.datas[d := if splice then Joined(id) else Dropped]))
  {
    var d := w.pubs[id].ch.value;
    var w' := w.(pubs := w.pubs[id := w.pubs[id].(phase := if splice then Spliced(d) else Closed, ch := None)],
                 datas := w.datas[d := if splice then Joined(id) else Dropped]);
    assert PubOk(w, id) && DataOk(w, d);
    forall i | i in w'.pubs ensures PubOk(w', i) {
      assert PubOk(w, i);
      if i != id && Coming(w, i) {
        var e :| e in w.datas && HeadsFor(w.datas[e], i);
        assert e in w'.datas && HeadsFor(w'.datas[e], i);
      }
    }
    forall e | e in w'.datas ensures DataOk(w', e) { assert DataOk(w, e); }
  }

  /** What is coming stays coming when a data connection is added. */
  lemma {:induction false} StillComing<L>(w: World<L>, w': World<L>, d: nat, x: Data, id: nat)
    requires d !in w.datas && w'.datas == w.datas[d := x] && Coming(w, id)
    ensures Coming(w', id)
  {
    var e :| e in w.datas && HeadsFor(w.datas[e], id);
    assert e in w'.datas && HeadsFor(w'.datas[e], id);
  }

  /** A data connection for a slot nobody waits on is closed at once. */
  lemma {:induction false} StrayKeeps<L(!new)>(w: World<L>, d: nat)
    requires Ok(w) && d !in w.datas
    ensures Ok(w.(datas := w.datas[d := Dropped]))
  {
    var w' := w.(datas := w.datas[d := Dropped]);
    forall i | i in w'.pubs ensures PubOk(w', i) {
      assert PubOk(w, i);
      if Coming(w, i) { StillComing(w, w', d, Dropped, i); }
    }
    forall e | e in w'.datas ensures DataOk(w', e) {
      if e != d { assert DataOk(w, e); }
    }
  }

  /** A data connection claims a pending slot. */
  lemma {:induction false} AnswerKeeps<L(!new)>(w: World<L>, d: nat, id: nat)
    requires Ok(w) && d !in w.datas && id in w.slots.pending
    ensures Ok(Take(w, id).(datas := w.datas[d := Sending(id)]))
  {
    var w' := Take(w, id).(datas := w.datas[d := Sending(id)]);
    ReleaseBudgeted(w.slots, id);
    PendingNotComing(w, id);
    assert PubOk(w, id);
    forall i | i in w'.pubs ensures PubOk(w', i) {
      assert PubOk(w, i);
      if i == id { assert HeadsFor(w'.datas[d], id); }
      else if Coming(w, i) { StillComing(w, w', d, Sending(id), i); }
    }
    forall e | e in w'.datas ensures DataOk(w', e) {
      if e != d {
        assert DataOk(w, e);
        assert HeadsFor(w.datas[e], id) ==> Coming(w, id);
      }
    }
  }

  lemma {:induction false} DataKeeps<L(!new)>(w: World<L>, d: nat, id: nat)
    requires Ok(w)
    ensures Ok(Next(w, DataConn(d, id)))
  {
    if d !in w.datas {
      if id in w.slots.pending { AnswerKeeps(w, d, id); } else { StrayKeeps(w, d); }
    }
  }

  lemma {:induction false} SendKeeps<L(!new)>(w: World<L>, d: nat)
    requires Ok(w)
    ensures Ok(Next(w, Send(d)))
  {
    var w' := Next(w, Send(d));
    if w' != w {
      assert DataOk(w, d);
      var id := w.datas[d].to;
      forall i | i in w'.pubs ensures PubOk(w', i) {
        assert PubOk(w, i);
        if Coming(w, i) {
          var e :| e in w.datas && HeadsFor(w.datas[e], i);
          assert e in w'.datas && HeadsFor(w'.datas[e], i);
        }
      }
      forall e | e in w'.datas ensures DataOk(w', e) { assert DataOk(w, e); }
    }
  }

  lemma {:induction false} FailKeeps<L(!new)>(w: World<L>, id: nat)
    requires Ok(w)
    ensures Ok(Next(w, OpenFailed(id)))
  {
    if In(w, id, Opening) {
      if id in w.slots.pending { CloseKeeps(w, id); } else { MoveKeeps(w, id, Closed); }
    }
  }

  lemma {:induction false} TimeOutKeeps<L(!new)>(w: World<L>, id: nat)
    requires Ok(w)
    ensures Ok(Next(w, TimeOut(id)))
  {
    if In(w, id, Waiting) {
      if id in w.slots.pending { CloseKeeps(w, id); } else { MoveKeeps(w, id, Draining); }
    }
  }

  lemma {:induction false} NextKeeps<L(!new)>(w: World<L>, e: Event<L>)
    requires Ok(w)
    ensures Ok(Next(w, e))
  {
    match e
    case Arrive(id, host) => ArriveKeeps(w, id, host);
    case Opened(id) => if In(w, id, Opening) { MoveKeeps(w, id, Waiting); }
    case OpenFailed(id) => FailKeeps(w, id);
    case TimeOut(id) => TimeOutKeeps(w, id);
    case Receive(id) => if In(w, id, Waiting) && w.pubs[id].ch.Some? { TakeOffKeeps(w, id, true); }
    case Drain(id) => if In(w, id, Draining) && w.pubs[id].ch.Some? { TakeOffKeeps(w, id, false); }
    case DataConn(d, id) => DataKeeps(w, d, id);
    case Send(d) => SendKeeps(w, d);
  }

  // ---------------------------------------------------------------- whole runs

  function Run<L(==)>(es: seq<Event<L>>): World<L> {
    if es == [] then World(Slots(map[], map[]), map[], map[]) else Next(Run(es[..|es| - 1]), es[|es| - 1])
  }

  lemma {:induction false} RunOk<L(!new)>(es: seq<Event<L>>)
    ensures Ok(Run(es))
    decreases |es|
  {
    if es == [] {
      var w: World<L> := World(Slots(map[], map[]), map[], map[]);
      forall l ensures |WithLabel(w.slots.pending, l)| == 0 { assert WithLabel(w.slots.pending, l) == {}; }
    } else {
      RunOk(es[..|es| - 1]);
      NextKeeps(Run(es[..|es| - 1]), es[|es| - 1]);
    }
  }

  /** In every interleaving: counters equal the pending entries of each host, both budgets hold,
      every slot is claimed exactly once in its life, no hand-over ever finds its channel full, and
      a handler that gave up on the timer always has the connection it must drain on its way. */
  lemma {:induction false} Conservation<L(!new)>(es: seq<Event<L>>)
    ensures var w := Run(es);
            && |w.slots.pending| <= MAX_PENDING
            && (forall l :: InFlight(w.slots, l) == |WithLabel(w.slots.pending, l)| <= MAX_PER_LABEL)
            && (forall id :: id in w.pubs ==>
                  w.pubs[id].taken == if id in w.slots.pending || w.pubs[id].phase == Turned then 0 else 1)
            && (forall d :: d in w.datas && w.datas[d].Sending? ==>
                  w.datas[d].to in w.pubs && w.pubs[w.datas[d].to].ch.None?)
            && (forall id :: In(w, id, Draining) ==> Coming(w, id))
  {
    RunOk(es);
    var w := Run(es);
    forall id | id in w.pubs ensures PubOk(w, id) { }
    forall d | d in w.datas ensures DataOk(w, d) { }
  }

  /** A data connection heading for a handler that has already closed: nobody will ever take it. */
  ghost predicate Orphaned<L>(w: World<L>) {
    exists d :: d in w.datas && Adrift(w, d)
  }

  ghost predicate Adrift<L>(w: World<L>, d: nat)
    requires d in w.datas
  {
    (w.datas[d].Sending? || w.datas[d].Handed?) && In(w, w.datas[d].to, Closed)
  }

  /** The OPEN write fails for a slot the gateway has already answered. */
  predicate AnsweredFailure<L(==)>(w: World<L>, e: Event<L>) {
    e.OpenFailed? && In(w, e.id, Opening) && e.id !in w.slots.pending
  }

  lemma {:induction false} AdriftStays<L(!new)>(w: World<L>, e: Event<L>, d: nat)
    requires Ok(w) && d in w.datas && Adrift(w, d)
    ensures d in Next(w, e).datas && Adrift(Next(w, e), d)
  {
    assert DataOk(w, d);
    assert PubOk(w, w.datas[d].to);
  }

  lemma {:induction false} AnsweredFailureOrphans<L(!new)>(w: World<L>, e: Event<L>)
    requires Ok(w) && AnsweredFailure(w, e)
    ensures Orphaned(Next(w, e))
  {
    assert PubOk(w, e.id);
    var d :| d in w.datas && HeadsFor(w.datas[d], e.id);
    assert d in Next(w, e).datas && Adrift(Next(w, e), d);
  }

  lemma {:induction false} NothingElseOrphans<L(!new)>(w: World<L>, e: Event<L>, d: nat)
    requires Ok(w) && !AnsweredFailure(w, e) && d in Next(w, e).datas && Adrift(Next(w, e), d)
    ensures d in w.datas && Adrift(w, d)
  {
    var w' := Next(w, e);
    var id := w'.datas[d].to;
    if d in w.datas { assert DataOk(w, d); }
    if id in w.pubs { assert PubOk(w, id); }
    if e.TimeOut? && e.id == id && id in w.slots.pending { PendingNotComing(w, id); }
    if e.OpenFailed? && e.id == id && id in w.slots.pending { PendingNotComing(w, id); }
    if e.Drain? && In(w, e.id, Draining) && w.pubs[e.id].ch.Some? { assert PubOk(w, e.id); }
  }

  predicate FailedAt<L(==)>(es: seq<Event<L>>, i: nat) {
    i < |es| && AnsweredFailure(Run(es[..i]), es[i])
  }

  ghost predicate HadAnsweredFailure<L>(es: seq<Event<L>>) {
    exists i: nat :: FailedAt(es, i)
  }

  /** Every data connection is spliced, closed, or on its way to a handler that will take it, if
      and only if no OPEN write failed after the gateway had already answered it. */
  lemma {:induction false} NoConnectionLostIff<L(!new)>(es: seq<Event<L>>)
    ensures Orphaned(Run(es)) <==> HadAnsweredFailure(es)
    ensures !Orphaned(Run(es)) ==>
              forall d :: d in Run(es).datas ==>
                var x := Run(es).datas[d];
                x == Dropped || (x.Joined? && In(Run(es), x.to, Spliced(d)))
                || (x.to in Run(es).pubs && Run(es).pubs[x.to].phase in {Opening, Waiting, Draining})
    decreases |es|
  {
    RunOk(es);
    forall d | d in Run(es).datas ensures DataOk(Run(es), d) { }
    if es != [] {
      var n := |es| - 1;
      var w, e := Run(es[..n]), es[n];
      NoConnectionLostIff(es[..n]);
      RunOk(es[..n]);
      FailureSnoc(es);
      if Orphaned(w) {
        var d :| d in w.datas && Adrift(w, d);
        AdriftStays(w, e, d);
      } else if AnsweredFailure(w, e) {
        AnsweredFailureOrphans(w, e);
      } else if Orphaned(Run(es)) {
        var d :| d in Run(es).datas && Adrift(Run(es), d);
        NothingElseOrphans(w, e, d);
      }
    }
  }

  /** The shortest run that loses a connection: the gateway answers a slot and the OPEN write that
      asked for it fails all the same. */
  lemma {:induction false} AnsweredThenFailed<L(!new)>(host: L)
    ensures var es := [Arrive(0, host), DataConn(0, 0), OpenFailed(0)]; HadAnsweredFailure(es) && Orphaned(Run(es))
  {
    var es: seq<Event<L>> := [Arrive(0, host), DataConn(0, 0), OpenFailed(0)];
    assert es[..2] == [Arrive(0, host), DataConn(0, 0)] && es[..2][..1] == [Arrive(0, host)] && es[..2][..1][..0] == [];
    var one := Run(es[..2][..1]);
    assert one == Next(Run<L>([]), Arrive(0, host));
    assert 0 in one.slots.pending && In(one, 0, Opening);
    assert Run(es[..2]) == Next(one, DataConn(0, 0));
    assert FailedAt(es, 2);
    NoConnectionLostIff(es);
  }

  // ---------------------------------------------------------------- delivery

  /** How far data connection `d` has come towards the waiting handler `id`: about to be sent, in
      its channel, or spliced to it. */
  predicate Near<L(==)>(w: World<L>, id: nat, d: nat, rank: nat) {
    id in w.pubs && d in w.datas &&
    if rank == 0 then w.pubs[id].phase == Waiting && w.datas[d] == Sending(id)
    else if rank == 1 then w.pubs[id].phase == Waiting && w.pubs[id].ch == Some(d) && w.datas[d] == Handed(id)
    else w.pubs[id].phase == Spliced(d) && w.datas[d] == Joined(id)
  }

  ghost predicate AtLeast<L>(w: World<L>, id: nat, d: nat, rank: nat) {
    exists r: nat :: rank <= r <= 2 && Near(w, id, d, r)
  }

  /** Only the handler's own timeout keeps a connection from coming closer, and once spliced not
      even that. */
  lemma {:induction false} NeverFarther<L(!new)>(w: World<L>, e: Event<L>, id: nat, d: nat, rank: nat)
    requires Ok(w) && rank <= 2 && Near(w, id, d, rank) && (e != TimeOut(id) || rank == 2)
    ensures AtLeast(Next(w, e), id, d,
                    if e == Send(d) && rank == 0 then 1 else if e == Receive(id) && rank == 1 then 2 else rank)
  {
    assert DataOk(w, d) && PubOk(w, id);
    var w' := Next(w, e);
    var r := if e == Send(d) && rank == 0 then 1 else if e == Receive(id) && rank == 1 then 2 else rank;
    assert Near(w', id, d, r);
  }

  function RunFrom<L(==)>(w: World<L>, es: seq<Event<L>>): World<L>
    decreases |es|
  {
    if es == [] then w else RunFrom(Next(w, es[0]), es[1..])
  }

  /** Event `a` sends the connection and a later one receives it. */
  predicate SentThenReceived<L(==)>(es: seq<Event<L>>, a: nat, b: nat, id: nat, d: nat) {
    a < b < |es| && es[a] == Send(d) && es[b] == Receive(id)
  }

  ghost predicate NoTimeOut<L>(es: seq<Event<L>>, id: nat) {
    forall i :: 0 <= i < |es| ==> es[i] != TimeOut(id)
  }

  lemma {:induction false} Closer<L(!new)>(w: World<L>, e: Event<L>, id: nat, d: nat, rank: nat)
    requires Ok(w) && AtLeast(w, id, d, rank) && e != TimeOut(id)
    ensures Ok(Next(w, e)) && AtLeast(Next(w, e), id, d, rank)
    ensures e == Send(d) && rank == 0 ==> AtLeast(Next(w, e), id, d, 1)
    ensures e == Receive(id) && rank == 1 ==> AtLeast(Next(w, e), id, d, 2)
  {
    var r: nat :| rank <= r <= 2 && Near(w, id, d, r);
    NeverFarther(w, e, id, d, r);
    NextKeeps(w, e);
  }

  lemma {:induction false} StaysNear<L(!new)>(w: World<L>, es: seq<Event<L>>, id: nat, d: nat, rank: nat)
    requires Ok(w) && AtLeast(w, id, d, rank) && NoTimeOut(es, id)
    ensures AtLeast(RunFrom(w, es), id, d, rank)
    decreases |es|
  {
    if es != [] {
      Closer(w, es[0], id, d, rank);
      StaysNear(Next(w, es[0]), es[1..], id, d, rank);
    }
  }

  lemma {:induction false} ReceivedLater<L(!new)>(w: World<L>, es: seq<Event<L>>, b: nat, id: nat, d: nat)
    requires Ok(w) && AtLeast(w, id, d, 1) && NoTimeOut(es, id) && b < |es| && es[b] == Receive(id)
    ensures AtLeast(RunFrom(w, es), id, d, 2)
    decreases |es|
  {
    Closer(w, es[0], id, d, 1);
    if b == 0 {
      StaysNear(Next(w, es[0]), es[1..], id, d, 2);
    } else {
      ReceivedLater(Next(w, es[0]), es[1..], b - 1, id, d);
    }
  }

  lemma {:induction false} SentLater<L(!new)>(w: World<L>, es: seq<Event<L>>, a: nat, b: nat, id: nat, d: nat)
    requires Ok(w) && AtLeast(w, id, d, 0) && NoTimeOut(es, id) && SentThenReceived(es, a, b, id, d)
    ensures AtLeast(RunFrom(w, es), id, d, 2)
    decreases |es|
  {
    Closer(w, es[0], id, d, 0);
    if a == 0 {
      ReceivedLater(Next(w, es[0]), es[1..], b - 1, id, d);
    } else {
      SentLater(Next(w, es[0]), es[1..], a - 1, b - 1, id, d);
    }
  }

  lemma {:induction false} ClaimedIsNear<L(!new)>(w: World<L>, id: nat, d: nat)
    requires Ok(w) && In(w, id, Waiting) && id in w.slots.pending && d !in w.datas
    ensures Ok(Next(w, DataConn(d, id))) && Near(Next(w, DataConn(d, id)), id, d, 0)
  {
    DataKeeps(w, d, id);
    assert PubOk(w, id);
  }

  /** Delivery: in any reachable world with a handler waiting on a pending slot, a new data
      connection for it is spliced to it by its send and the handler's receive, whatever else
      happens before, between and after, as long as that handler's timer does not fire. */
  lemma {:induction false} Delivered<L(!new)>(w: World<L>, id: nat, d: nat, es: seq<Event<L>>, a: nat, b: nat)
    requires Ok(w) && In(w, id, Waiting) && id in w.slots.pending && d !in w.datas
    requires SentThenReceived(es, a, b, id, d) && NoTimeOut(es, id)
    ensures var end := RunFrom(Next(w, DataConn(d, id)), es);
            In(end, id, Spliced(d)) && d in end.datas && end.datas[d] == Joined(id)
  {
    ClaimedIsNear(w, id, d);
    SentLater(Next(w, DataConn(d, id)), es, a, b, id, d);
  }

  /** The whole path of a connection that there is room for. */
  lemma {:induction false} ArrivalIsServed<L(!new)>(w: World<L>, id: nat, host: L, d: nat)
    requires Ok(w) && id !in w.pubs && d !in w.datas && Room(w.slots, host)
    ensures var waiting := Next(Next(w, Arrive(id, host)), Opened(id));
            Ok(waiting) && In(waiting, id, Waiting) && id in waiting.slots.pending && waiting.slots.pending[id] == host
    ensures var waiting := Next(Next(w, Arrive(id, host)), Opened(id));
            var end := RunFrom(Next(waiting, DataConn(d, id)), [Send(d), Receive(id)]);
            In(end, id, Spliced(d)) && d in end.datas && end.datas[d] == Joined(id)
  {
    NextKeeps(w, Arrive(id, host));
    NextKeeps(Next(w, Arrive(id, host)), Opened(id));
    var waiting := Next(Next(w, Arrive(id, host)), Opened(id));
    var es: seq<Event<L>> := [Send(d), Receive(id)];
    assert SentThenReceived(es, 0, 1, id, d);
    Delivered(waiting, id, d, es, 0, 1);
  }

  /** A timer that fires on a pending slot closes the handler and frees the slot; one that fires
      after the slot was claimed leaves the handler to drain the connection, which is then closed
      and so is the handler. */
  lemma {:induction false} TimedOut<L(!new)>(w: World<L>, id: nat, d: nat)
    requires Ok(w) && In(w, id, Waiting)
    ensures id in w.slots.pending ==>
              In(Next(w, TimeOut(id)), id, Closed) && id !in Next(w, TimeOut(id)).slots.pending
    ensures d in w.datas && w.datas[d] == Sending(id) ==>
              var end := Next(Next(Next(w, TimeOut(id)), Send(d)), Drain(id));
              In(end, id, Closed) && end.pubs[id].ch == None && d in end.datas && end.datas[d] == Dropped
    ensures d in w.datas && w.datas[d] == Handed(id) ==>
              var end := Next(Next(w, TimeOut(id)), Drain(id));
              In(end, id, Closed) && end.pubs[id].ch == None && d in end.datas && end.datas[d] == Dropped
  {
    assert PubOk(w, id);
    if d in w.datas { assert DataOk(w, d); }
  }

  lemma {:induction false} FailedAtPrefix<L(!new)>(es: seq<Event<L>>, i: nat)
    requires i < |es| - 1
    ensures FailedAt(es, i) <==> FailedAt(es[..|es| - 1], i)
  {
    assert es[..|es| - 1][..i] == es[..i];
  }

  lemma {:induction false} FailureSnoc<L(!new)>(es: seq<Event<L>>)
    requires es != []
    ensures HadAnsweredFailure(es) <==> HadAnsweredFailure(es[..|es| - 1]) || FailedAt(es, |es| - 1)
  {
    var n := |es| - 1;
    if HadAnsweredFailure(es) {
      var i: nat :| FailedAt(es, i);
      if i < n { FailedAtPrefix(es, i); }
    }
    if HadAnsweredFailure(es[..n]) {
      var i: nat :| FailedAt(es[..n], i);
      FailedAtPrefix(es, i);
    }
  }
}
