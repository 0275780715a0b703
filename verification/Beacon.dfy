/** The public relay: gateways registered by host (their subdomain label), and public connections waiting for the data
    connection their gateway opens in answer. Each critical section is one step. */
module Beacon {
  import opened Common

  const MAX_PENDING := 1024
  const MAX_PER_LABEL := 128
  const MAX_GATEWAYS := 65536

  // ---------------------------------------------------------------- the shared tables

  /** Connection ids, data connections and tunnels are named by numbers. */
  datatype Slots<L> = Slots(pending: map<nat, L>, perLabel: map<L, int>)

  function InFlight<L(==)>(s: Slots<L>, host: L): int {
    if host in s.perLabel then s.perLabel[host] else 0
  }

  predicate Room<L(==)>(s: Slots<L>, host: L) {
    |s.pending| < MAX_PENDING && InFlight(s, host) < MAX_PER_LABEL
  }

  function Reserve<L(==)>(s: Slots<L>, id: nat, host: L): Slots<L> {
    Slots(s.pending[id := host], s.perLabel[host := InFlight(s, host) + 1])
  }

  function Release<L(==)>(s: Slots<L>, id: nat): Slots<L> {
    if id !in s.pending then s
    else
      var host := s.pending[id];
      var left := InFlight(s, host) - 1;
      Slots(s.pending - {id}, if left <= 0 then s.perLabel - {host} else s.perLabel[host := left])
  }

  predicate Registers<L(==)>(gateways: map<L, nat>, host: L) {
    host in gateways || |gateways| < MAX_GATEWAYS
  }

  class Server<L(==)> {
    var gateways: map<L, nat>
    var pending: map<nat, L>
    var perLabel: map<L, int>

    ghost function Value(): Slots<L>
      reads this
    {
      Slots(pending, perLabel)
    }

    constructor ()
      ensures gateways == map[] && Value() == Slots(map[], map[])
    {
      gateways, pending, perLabel := map[], map[], map[];
    }

    /** Binds a proven host label to a tunnel; the last registration wins. */
    method Bind(host: L, tunnel: nat) returns (ok: bool, dropped: Option<nat>)
      modifies this
      ensures ok == Registers(old(gateways), host)
      ensures gateways == if ok then old(gateways)[host := tunnel] else old(gateways)
      ensures dropped == if host in old(gateways) then Some(old(gateways)[host]) else None
      ensures Value() == old(Value())
    {
      dropped := if host in gateways then Some(gateways[host]) else None;
      if dropped.None? && |gateways| >= MAX_GATEWAYS { return false, dropped; }
      gateways := gateways[host := tunnel];
      ok := true;
    }

    method Deregister(host: L, tunnel: nat)
      modifies this
      ensures gateways == Deregistered(old(gateways), host, tunnel)
      ensures Value() == old(Value())
    {
      if host in gateways && gateways[host] == tunnel { gateways := gateways - {host}; }
    }

    method ReserveSlot(id: nat, host: L) returns (ok: bool)
      modifies this
      ensures ok == Room(old(Value()), host)
      ensures Value() == if ok then Reserve(old(Value()), id, host) else old(Value())
      ensures gateways == old(gateways)
    {
      var count := if host in perLabel then perLabel[host] else 0;
      if |pending| >= MAX_PENDING || count >= MAX_PER_LABEL { return false; }
      pending := pending[id := host];
      perLabel := perLabel[host := count + 1];
      ok := true;
    }

    method RemovePending(id: nat) returns (found: bool)
      modifies this
      ensures found == (id in old(pending)) && Value() == Release(old(Value()), id)
      ensures gateways == old(gateways)
    {
      if id !in pending { return false; }
      var host := pending[id];
      pending := pending - {id};
      perLabel := perLabel[host := (if host in perLabel then perLabel[host] else 0) - 1];
      if perLabel[host] <= 0 { perLabel := perLabel - {host}; }
      assert Value() == Release(old(Value()), id);
      found := true;
    }
  }

  // ---------------------------------------------------------------- budgets

  ghost function WithLabel<L>(pending: map<nat, L>, host: L): set<nat> {
    set id | id in pending && pending[id] == host
  }

  /** The counters are exactly the per-host numbers of pending entries, with no zero entries,
      and both budgets hold. */
  ghost predicate Budgeted<L(!new)>(s: Slots<L>) {
    && |s.pending| <= MAX_PENDING
    && (forall l :: InFlight(s, l) == |WithLabel(s.pending, l)| <= MAX_PER_LABEL)
    && (forall l :: l in s.perLabel ==> s.perLabel[l] > 0)
  }

  lemma {:induction false} CountReserved<L>(pending: map<nat, L>, id: nat, host: L, l: L)
    requires id !in pending
    ensures |WithLabel(pending[id := host], l)| == |WithLabel(pending, l)| + if l == host then 1 else 0
  {
    if l == host {
      assert WithLabel(pending[id := host], l) == WithLabel(pending, l) + {id};
    } else {
      assert WithLabel(pending[id := host], l) == WithLabel(pending, l);
    }
  }

  lemma {:induction false} CountReleased<L>(pending: map<nat, L>, id: nat, l: L)
    requires id in pending
    ensures |WithLabel(pending, l)| == |WithLabel(pending - {id}, l)| + if l == pending[id] then 1 else 0
  {
    if l == pending[id] {
      assert WithLabel(pending, l) == WithLabel(pending - {id}, l) + {id};
    } else {
      assert WithLabel(pending, l) == WithLabel(pending - {id}, l);
    }
  }

  lemma {:induction false} ReserveBudgeted<L(!new)>(s: Slots<L>, id: nat, host: L)
    requires Budgeted(s) && Room(s, host) && id !in s.pending
    ensures Budgeted(Reserve(s, id, host))
  {
    var s' := Reserve(s, id, host);
    forall l ensures InFlight(s', l) == |WithLabel(s'.pending, l)| <= MAX_PER_LABEL {
      CountReserved(s.pending, id, host, l);
    }
  }

  lemma {:induction false} ReleaseBudgeted<L(!new)>(s: Slots<L>, id: nat)
    requires Budgeted(s)
    ensures Budgeted(Release(s, id))
  {
    if id in s.pending {
      var s' := Release(s, id);
      assert |s'.pending| == |s.pending| - 1;
      forall l ensures InFlight(s', l) == |WithLabel(s'.pending, l)| <= MAX_PER_LABEL {
        CountReleased(s.pending, id, l);
      }
    }
  }

  /** When there is room, by the entries themselves: fewer than 1024 pending, fewer than 128 of them of the
      host's. */
  lemma {:induction false} RoomIff<L(!new)>(s: Slots<L>, host: L)
    requires Budgeted(s)
    ensures Room(s, host) <==> |s.pending| < 1024 && |WithLabel(s.pending, host)| < 128
  {
  }

  // ---------------------------------------------------------------- registration over whole runs

  function Deregistered<L(==)>(gateways: map<L, nat>, host: L, tunnel: nat): map<L, nat> {
    if host in gateways && gateways[host] == tunnel then gateways - {host} else gateways
  }

  datatype Reg<L> = Register(host: L, tunnel: nat) | Leave(host: L, tunnel: nat)

  function RegNext<L(==)>(m: map<L, nat>, e: Reg<L>): map<L, nat> {
    match e
    case Register(host, tunnel) => if Registers(m, host) then m[host := tunnel] else m
    case Leave(host, tunnel) => Deregistered(m, host, tunnel)
  }

  function RegRun<L(==)>(es: seq<Reg<L>>): map<L, nat> {
    if es == [] then map[] else RegNext(RegRun(es[..|es| - 1]), es[|es| - 1])
  }

  /** Event `i` bound `host` to `tunnel`. */
  predicate Bound<L(==)>(es: seq<Reg<L>>, i: nat, host: L, tunnel: nat) {
    i < |es| && es[i] == Register(host, tunnel) && Registers(RegRun(es[..i]), host)
  }

  /** Since event `i` the tunnel has neither left nor been superseded. */
  ghost predicate Undisturbed<L>(es: seq<Reg<L>>, i: nat, host: L, tunnel: nat) {
    forall j: nat :: i < j < |es| ==> Quiet(es[j], host, tunnel)
  }

  predicate Quiet<L(==)>(e: Reg<L>, host: L, tunnel: nat) {
    e != Leave(host, tunnel) && (e.Register? ==> e.host != host)
  }

  ghost predicate HeldSince<L>(es: seq<Reg<L>>, i: nat, host: L, tunnel: nat) {
    Bound(es, i, host, tunnel) && Undisturbed(es, i, host, tunnel)
  }

  predicate Holds<L(==)>(m: map<L, nat>, host: L, tunnel: nat) {
    host in m && m[host] == tunnel
  }

  ghost predicate Held<L(!new)>(es: seq<Reg<L>>, host: L, tunnel: nat) {
    exists i: nat :: HeldSince(es, i, host, tunnel)
  }

  /** A host is held by exactly the tunnel that bound it last and has not left since: a superseded
      tunnel's deregistration never removes its successor. */
  lemma {:induction false} HolderIsLastBound<L(!new)>(es: seq<Reg<L>>, host: L, tunnel: nat)
    ensures Holds(RegRun(es), host, tunnel) <==> Held(es, host, tunnel)
    decreases |es|
  {
    if es != [] {
      var n := |es| - 1;
      HolderIsLastBound(es[..n], host, tunnel);
      HoldsStep(RegRun(es[..n]), es[n], host, tunnel);
      HeldSnoc(es, host, tunnel);
    }
  }

  /** A tunnel holds on by the last event, or since an earlier one that the last leaves alone. */
  lemma {:induction false} HeldSnoc<L(!new)>(es: seq<Reg<L>>, host: L, tunnel: nat)
    requires es != []
    ensures var n := |es| - 1;
            Held(es, host, tunnel) <==>
            Bound(es, n, host, tunnel) || (Held(es[..n], host, tunnel) && Quiet(es[n], host, tunnel))
  {
    var n := |es| - 1;
    if Held(es, host, tunnel) {
      var i: nat :| HeldSince(es, i, host, tunnel);
      if i < n { HeldPrefix(es, i, host, tunnel); }
    }
    if Bound(es, n, host, tunnel) {
      assert HeldSince(es, n, host, tunnel);
    }
    if Held(es[..n], host, tunnel) && Quiet(es[n], host, tunnel) {
      var i: nat :| HeldSince(es[..n], i, host, tunnel);
      HeldPrefix(es, i, host, tunnel);
    }
  }

  lemma {:induction false} HoldsStep<L(!new)>(m: map<L, nat>, e: Reg<L>, host: L, tunnel: nat)
    ensures Holds(RegNext(m, e), host, tunnel) <==>
            (e == Register(host, tunnel) && Registers(m, host)) || (Holds(m, host, tunnel) && Quiet(e, host, tunnel))
  {
  }

  /** Holding since event `i`, seen one event earlier. */
  lemma {:induction false} HeldPrefix<L(!new)>(es: seq<Reg<L>>, i: nat, host: L, tunnel: nat)
    requires i < |es| - 1
    ensures var n := |es| - 1;
            HeldSince(es, i, host, tunnel) <==> HeldSince(es[..n], i, host, tunnel) && Quiet(es[n], host, tunnel)
  {
    var n := |es| - 1;
    assert es[..n][..i] == es[..i];
    assert forall j: nat :: j < n ==> es[..n][j] == es[j];
  }

  /** A registration takes the host unless the host is new and 65536 are registered. */
  lemma {:induction false} RegistrationTakes<L(!new)>(es: seq<Reg<L>>, host: L, tunnel: nat)
    ensures Holds(RegRun(es + [Register(host, tunnel)]), host, tunnel) <==>
            host in RegRun(es) || |RegRun(es)| < 65536
  {
    assert (es + [Register(host, tunnel)])[..|es|] == es;
  }

  /** The table never outgrows its cap. */
  lemma {:induction false} GatewaysCapped<L(!new)>(es: seq<Reg<L>>)
    ensures |RegRun(es)| <= MAX_GATEWAYS
    decreases |es|
  {
    if es != [] {
      var n := |es| - 1;
      GatewaysCapped(es[..n]);
      var m := RegRun(es[..n]);
      match es[n]
      case Register(host, tunnel) =>
        assert m[host := tunnel].Keys == m.Keys + {host};
        assert host in m ==> m.Keys + {host} == m.Keys;
      case Leave(host, tunnel) =>
        assert (m - {host}).Keys == m.Keys - {host};
    }
  }
}
