/** The bounded k-hop neighbourhood of a seed in the active triples. */
module Subgraph {

  datatype Triple = Triple(s: string, p: string, o: string, peer: string)

  predicate Touches(t: Triple, node: string) {
    t.s == node || t.o == node
  }

  // ---------------------------------------------------------------- reference: undirected distance

  ghost predicate Adjacent(active: seq<Triple>, u: string, v: string) {
    exists t :: t in active && Touches(t, u) && Touches(t, v)
  }

  /** A walk through non-empty nodes, each step along some active triple in either direction. */
  ghost predicate IsPath(active: seq<Triple>, path: seq<string>) {
    && path != []
    && (forall i :: 0 <= i < |path| ==> path[i] != "")
    && forall i :: 0 <= i < |path| - 1 ==> Adjacent(active, path[i], path[i + 1])
  }

  /** `v` lies within undirected distance `d` of `seed`. */
  ghost predicate Within(active: seq<Triple>, seed: string, v: string, d: nat) {
    exists path :: IsPath(active, path) && path[0] == seed && path[|path| - 1] == v && |path| <= d + 1
  }

  ghost function SetOf<T>(s: seq<T>): set<T> {
    set x | x in s
  }

  predicate IsEnd(t: Triple, node: string) {
    node != "" && Touches(t, node)
  }

  /** Within distance `d`, layer by layer. */
  ghost predicate InBall(active: seq<Triple>, seed: string, d: nat, v: string)
    decreases d, 1
  {
    if d == 0 then v == seed
    else InBall(active, seed, d - 1, v) || exists t :: Met(active, seed, d - 1, t) && IsEnd(t, v)
  }

  /** An active triple that touches the ball of radius `d`. */
  ghost predicate Met(active: seq<Triple>, seed: string, d: nat, t: Triple)
    decreases d, 2
  {
    t in active && (InBall(active, seed, d, t.s) || InBall(active, seed, d, t.o))
  }

  lemma {:induction false} BallIsWithin(active: seq<Triple>, seed: string, v: string, d: nat)
    requires seed != "" && InBall(active, seed, d, v)
    ensures Within(active, seed, v, d)
    decreases d
  {
    if d == 0 {
      assert IsPath(active, [seed]);
    } else if InBall(active, seed, d - 1, v) {
      BallIsWithin(active, seed, v, d - 1);
      var path :| IsPath(active, path) && path[0] == seed && path[|path| - 1] == v && |path| <= d;
      assert |path| <= d + 1;
    } else {
      var t :| Met(active, seed, d - 1, t) && IsEnd(t, v);
      var u := if InBall(active, seed, d - 1, t.s) then t.s else t.o;
      BallIsWithin(active, seed, u, d - 1);
      var path :| IsPath(active, path) && path[0] == seed && path[|path| - 1] == u && |path| <= d;
      assert Adjacent(active, u, v) by { assert t in active && Touches(t, u) && Touches(t, v); }
      assert IsPath(active, path + [v]);
    }
  }

  lemma {:induction false} PathInBall(active: seq<Triple>, seed: string, path: seq<string>, d: nat)
    requires IsPath(active, path) && path[0] == seed && |path| <= d + 1
    ensures InBall(active, seed, d, path[|path| - 1])
    decreases d
  {
    if |path| == 1 {
      BallGrows(active, seed, 0, d, seed);
    } else {
      var n := |path| - 1;
      PathInBall(active, seed, path[..n], d - 1);
      var u, v := path[n - 1], path[n];
      assert Adjacent(active, u, v);
      var t :| t in active && Touches(t, u) && Touches(t, v);
      assert Met(active, seed, d - 1, t) && IsEnd(t, v);
    }
  }

  lemma {:induction false} BallGrows(active: seq<Triple>, seed: string, d: nat, e: nat, v: string)
    requires d <= e && InBall(active, seed, d, v)
    ensures InBall(active, seed, e, v)
    decreases e - d
  {
    if d < e { BallGrows(active, seed, d, e - 1, v); }
  }

  /** Two balls that agree stay in agreement with every larger one. */
  lemma {:induction false} BallStable(active: seq<Triple>, seed: string, d: nat, e: nat)
    requires forall v :: InBall(active, seed, d + 1, v) ==> InBall(active, seed, d, v)
    requires d <= e
    ensures forall v :: InBall(active, seed, e, v) <==> InBall(active, seed, d, v)
    decreases e - d
  {
    if d < e {
      BallStable(active, seed, d, e - 1);
      forall v ensures InBall(active, seed, e, v) <==> InBall(active, seed, d, v) {
        if InBall(active, seed, e, v) && !InBall(active, seed, e - 1, v) {
          var t :| Met(active, seed, e - 1, t) && IsEnd(t, v);
          assert Met(active, seed, d, t);
        }
      }
    }
  }

  // ---------------------------------------------------------------- the traversal as a fold

  function Incident(active: seq<Triple>, node: string): seq<Triple> {
    if active == [] then []
    else
      var n := |active| - 1;
      Incident(active[..n], node) + (if Touches(active[n], node) then [active[n]] else [])
  }

  datatype Walk = Walk(visited: set<string>, out: seq<Triple>, next: seq<string>)

  function Enqueue(w: Walk, node: string): Walk {
    if node != "" && node !in w.visited then w.(visited := w.visited + {node}, next := w.next + [node]) else w
  }

  function Visit(w: Walk, t: Triple): Walk {
    if t in w.out then w else Enqueue(Enqueue(w.(out := w.out + [t]), t.s), t.o)
  }

  function VisitAll(w: Walk, ts: seq<Triple>): Walk
    decreases |ts|
  {
    if ts == [] then w else VisitAll(Visit(w, ts[0]), ts[1..])
  }

  function Expand(active: seq<Triple>, w: Walk, frontier: seq<string>): Walk
    decreases |frontier|
  {
    if frontier == [] then w else Expand(active, VisitAll(w, Incident(active, frontier[0])), frontier[1..])
  }

  function Layers(active: seq<Triple>, w: Walk, hops: nat): seq<Triple>
    decreases hops
  {
    if hops == 0 || w.next == [] then w.out
    else Layers(active, Expand(active, w.(next := []), w.next), hops - 1)
  }

  /** The uncapped neighbourhood, in the order the traversal meets it. */
  function Neighbourhood(active: seq<Triple>, seed: string, hops: int): seq<Triple> {
    if seed == "" || hops <= 0 then [] else Layers(active, Walk({seed}, [], [seed]), hops)
  }

  ghost predicate NoDup<T>(s: seq<T>) {
    forall i, j :: 0 <= i < j < |s| ==> s[i] != s[j]
  }

  lemma {:induction false} IncidentExact(active: seq<Triple>, node: string)
    ensures forall t :: t in Incident(active, node) <==> t in active && Touches(t, node)
  {
    if active != [] {
      var n := |active| - 1;
      IncidentExact(active[..n], node);
      assert active == active[..n] + [active[n]];
    }
  }

  /** Where entry `m` of a node's edges stands among the active triples. */
  function Place(active: seq<Triple>, node: string, m: nat): (p: nat)
    requires m < |Incident(active, node)|
    ensures p < |active| && active[p] == Incident(active, node)[m] && Touches(active[p], node)
    decreases |active|
  {
    var n := |active| - 1;
    if m < |Incident(active[..n], node)| then Place(active[..n], node, m) else n
  }

  /** A node's edges are the active triples that touch it, one for each, in active order. */
  lemma {:induction false} IncidentInOrder(active: seq<Triple>, node: string)
    ensures forall l: nat, m: nat :: l < m < |Incident(active, node)| ==>
              Place(active, node, l) < Place(active, node, m)
    ensures forall p: nat :: p < |active| && Touches(active[p], node) ==> exists m: nat :: PlacedAt(active, node, m, p)
    decreases |active|
  {
    if active != [] {
      var n := |active| - 1;
      IncidentInOrder(active[..n], node);
      forall l: nat, m: nat | l < m < |Incident(active, node)| ensures Place(active, node, l) < Place(active, node, m) {
        if m < |Incident(active[..n], node)| { assert Place(active[..n], node, l) < Place(active[..n], node, m); }
      }
      forall p: nat | p < |active| && Touches(active[p], node) ensures exists m: nat :: PlacedAt(active, node, m, p) {
        if p < n {
          assert Touches(active[..n][p], node);
          var m: nat :| PlacedAt(active[..n], node, m, p);
          assert PlacedAt(active, node, m, p);
        } else {
          assert PlacedAt(active, node, |Incident(active[..n], node)|, p);
        }
      }
    }
  }

  predicate PlacedAt(active: seq<Triple>, node: string, m: nat, p: nat) {
    m < |Incident(active, node)| && Place(active, node, m) == p
  }

  /** The members of `ts` that are not in `known`, each where it first occurs. */
  function New<T(==)>(known: seq<T>, ts: seq<T>): seq<T>
    decreases |ts|
  {
    if ts == [] then []
    else if ts[0] in known then New(known, ts[1..])
    else [ts[0]] + New(known + [ts[0]], ts[1..])
  }

  /** Visiting a node appends its edges that are new, in the order given. */
  lemma {:induction false} VisitedInOrder(w: Walk, ts: seq<Triple>)
    ensures VisitAll(w, ts).out == w.out + New(w.out, ts)
    decreases |ts|
  {
    if ts == [] {
      assert w.out + [] == w.out;
    } else {
      VisitedInOrder(Visit(w, ts[0]), ts[1..]);
      if ts[0] !in w.out {
        var rest := New(w.out + [ts[0]], ts[1..]);
        assert (w.out + [ts[0]]) + rest == w.out + ([ts[0]] + rest);
      }
    }
  }

  /** The order of one layer, and so what a cap keeps of it: the nodes in the order they were queued, and
      each node's new edges in active order. */
  lemma {:induction false} LayerInOrder(active: seq<Triple>, w: Walk, frontier: seq<string>)
    requires frontier != []
    ensures var first := w.out + New(w.out, Incident(active, frontier[0]));
            first <= Expand(active, w, frontier).out
            && Expand(active, w, frontier) == Expand(active, VisitAll(w, Incident(active, frontier[0])), frontier[1..])
    decreases |frontier|
  {
    var x := VisitAll(w, Incident(active, frontier[0]));
    VisitedInOrder(w, Incident(active, frontier[0]));
    ExpandExtends(active, x, frontier[1..]);
  }

  lemma {:induction false} ExpandExtends(active: seq<Triple>, w: Walk, frontier: seq<string>)
    ensures w.out <= Expand(active, w, frontier).out
    decreases |frontier|
  {
    if frontier != [] {
      VisitedInOrder(w, Incident(active, frontier[0]));
      ExpandExtends(active, VisitAll(w, Incident(active, frontier[0])), frontier[1..]);
    }
  }

  /** Nodes are queued in the order they are met: of each new edge its subject, then its object. */
  lemma {:induction false} QueuedInOrder(w: Walk, t: Triple)
    requires t !in w.out
    ensures var first := t.s != "" && t.s !in w.visited;
            var second := t.o != "" && t.o !in w.visited && !(first && t.o == t.s);
            Visit(w, t).next == w.next + (if first then [t.s] else []) + (if second then [t.o] else [])
  {
  }

  /** One hop is the seed's own edges, without repetition, in active order. */
  lemma {:induction false} OneHop(active: seq<Triple>, seed: string)
    requires seed != ""
    ensures Neighbourhood(active, seed, 1) == New([], Incident(active, seed))
  {
    var w := Walk({seed}, [], []);
    VisitedInOrder(w, Incident(active, seed));
    var x := VisitAll(w, Incident(active, seed));
    assert [seed][1..] == [] && Walk({seed}, [], [seed]).(next := []) == w;
    assert Expand(active, w, [seed]) == Expand(active, x, []) == x;
    assert [] + New([], Incident(active, seed)) == New([], Incident(active, seed));
  }

  /** Collecting more triples: nothing is lost, only their endpoints are newly visited, and
      exactly the newly visited nodes are queued. */
  ghost predicate Grown(w: Walk, w': Walk) {
    && w.out <= w'.out && w.visited <= w'.visited
    && (NoDup(w.out) ==> NoDup(w'.out))
    && (forall v :: v in w'.visited ==> v in w.visited || exists t :: t in w'.out && IsEnd(t, v))
    && (forall v :: v in w'.next <==> v in w.next || (v in w'.visited && v !in w.visited))
  }

  ghost predicate EndsVisited(w: Walk) {
    forall t, v :: t in w.out && IsEnd(t, v) ==> v in w.visited
  }

  lemma {:induction false} VisitGrows(w: Walk, t: Triple)
    requires EndsVisited(w)
    ensures Grown(w, Visit(w, t)) && EndsVisited(Visit(w, t))
    ensures forall u :: u in Visit(w, t).out <==> u in w.out || u == t
  {
    var x := Visit(w, t);
    forall v | v in x.visited && v !in w.visited ensures exists u :: u in x.out && IsEnd(u, v) {
      assert t in x.out && IsEnd(t, v);
    }
  }

  lemma {:induction false} GrownTrans(w: Walk, x: Walk, y: Walk)
    requires Grown(w, x) && Grown(x, y)
    ensures Grown(w, y)
  {
    forall v | v in y.visited && v !in w.visited ensures exists t :: t in y.out && IsEnd(t, v) {
      if v in x.visited {
        var t :| t in x.out && IsEnd(t, v);
        assert t in y.out;
      }
    }
  }

  lemma {:induction false} VisitAllGrows(w: Walk, ts: seq<Triple>)
    requires EndsVisited(w)
    ensures Grown(w, VisitAll(w, ts)) && EndsVisited(VisitAll(w, ts))
    ensures forall u :: u in VisitAll(w, ts).out <==> u in w.out || u in ts
    decreases |ts|
  {
    if ts != [] {
      var x := Visit(w, ts[0]);
      VisitGrows(w, ts[0]);
      VisitAllGrows(x, ts[1..]);
      GrownTrans(w, x, VisitAll(w, ts));
      assert ts == [ts[0]] + ts[1..];
    }
  }

  lemma {:induction false} ExpandGrows(active: seq<Triple>, w: Walk, frontier: seq<string>)
    requires EndsVisited(w)
    ensures Grown(w, Expand(active, w, frontier)) && EndsVisited(Expand(active, w, frontier))
    ensures forall u :: u in Expand(active, w, frontier).out <==>
                        u in w.out || (u in active && (u.s in frontier || u.o in frontier))
    decreases |frontier|
  {
    if frontier != [] {
      var ts := Incident(active, frontier[0]);
      var x := VisitAll(w, ts);
      VisitAllGrows(w, ts);
      IncidentExact(active, frontier[0]);
      ExpandGrows(active, x, frontier[1..]);
      GrownTrans(w, x, Expand(active, w, frontier));
      assert frontier == [frontier[0]] + frontier[1..];
    }
  }

  /** The walk after `d` layers: visited is the ball, collected is what touches the inner ball,
      queued is the ball's rim. */
  ghost predicate AtLayer(active: seq<Triple>, seed: string, d: nat, w: Walk) {
    && EndsVisited(w) && NoDup(w.out)
    && (forall v :: v in w.visited <==> InBall(active, seed, d, v))
    && (forall t :: t in w.out <==> d > 0 && Met(active, seed, d - 1, t))
    && (forall v :: v in w.next <==> InBall(active, seed, d, v) && (d > 0 ==> !InBall(active, seed, d - 1, v)))
  }

  lemma {:induction false} LayerStep(active: seq<Triple>, seed: string, d: nat, w: Walk)
    requires AtLayer(active, seed, d, w)
    ensures AtLayer(active, seed, d + 1, Expand(active, w.(next := []), w.next))
  {
    var y := Expand(active, w.(next := []), w.next);
    ExpandGrows(active, w.(next := []), w.next);
    forall t ensures t in y.out <==> Met(active, seed, d, t) {
      if t in w.out {
        if InBall(active, seed, d - 1, t.s) { BallGrows(active, seed, d - 1, d, t.s); }
        if InBall(active, seed, d - 1, t.o) { BallGrows(active, seed, d - 1, d, t.o); }
      }
      if t in active && t !in w.out && d > 0 { assert !Met(active, seed, d - 1, t); }
    }
    forall v ensures v in y.visited <==> InBall(active, seed, d + 1, v) {
      if v in y.visited && v !in w.visited {
        var t :| t in y.out && IsEnd(t, v);
        assert Met(active, seed, d, t);
      }
      if InBall(active, seed, d + 1, v) && !InBall(active, seed, d, v) {
        var t :| Met(active, seed, d, t) && IsEnd(t, v);
        assert t in y.out;
      }
    }
  }

  ghost predicate Collected(active: seq<Triple>, seed: string, d: nat, out: seq<Triple>) {
    NoDup(out) && forall t :: t in out <==> Met(active, seed, d, t)
  }

  /** Once a layer discovers nothing the ball has stopped growing. */
  lemma {:induction false} EmptyFrontier(active: seq<Triple>, seed: string, d: nat, w: Walk, e: nat)
    requires AtLayer(active, seed, d, w) && w.next == [] && d - 1 <= e
    ensures Collected(active, seed, e, w.out)
  {
    assert d > 0 by { assert d == 0 ==> seed in w.next; }
    forall v | InBall(active, seed, d, v) ensures InBall(active, seed, d - 1, v) { assert v !in w.next; }
    BallStable(active, seed, d - 1, e);
    forall t ensures Met(active, seed, d - 1, t) <==> Met(active, seed, e, t) { }
  }

  lemma {:induction false} LayersExact(active: seq<Triple>, seed: string, d: nat, w: Walk, hops: nat)
    requires AtLayer(active, seed, d, w) && d + hops > 0
    ensures Collected(active, seed, d + hops - 1, Layers(active, w, hops))
    decreases hops
  {
    if w.next == [] {
      EmptyFrontier(active, seed, d, w, d + hops - 1);
    } else if hops > 0 {
      LayerStep(active, seed, d, w);
      LayersExact(active, seed, d + 1, Expand(active, w.(next := []), w.next), hops - 1);
    }
  }

  /** Exactness: without a cap the result is, with no repetition, exactly the active triples that
      touch a node at undirected distance below `hops`, cyclic graphs included. */
  lemma {:induction false} NeighbourhoodExact(active: seq<Triple>, seed: string, hops: int)
    ensures NoDup(Neighbourhood(active, seed, hops))
    ensures forall t :: t in Neighbourhood(active, seed, hops) <==>
                        seed != "" && hops > 0 && t in active &&
                        exists v :: Within(active, seed, v, hops - 1) && Touches(t, v)
  {
    if seed != "" && hops > 0 {
      var w := Walk({seed}, [], [seed]);
      assert AtLayer(active, seed, 0, w);
      LayersExact(active, seed, 0, w, hops);
      forall t ensures Met(active, seed, hops - 1, t) <==>
                       t in active && exists v :: Within(active, seed, v, hops - 1) && Touches(t, v)
      {
        if Met(active, seed, hops - 1, t) {
          var v := if InBall(active, seed, hops - 1, t.s) then t.s else t.o;
          BallIsWithin(active, seed, v, hops - 1);
          assert Touches(t, v);
        }
        if v :| t in active && Within(active, seed, v, hops - 1) && Touches(t, v) {
          var path :| IsPath(active, path) && path[0] == seed && path[|path| - 1] == v && |path| <= hops - 1 + 1;
          PathInBall(active, seed, path, hops - 1);
        }
      }
    }
  }

  /** The list is in layers: what is within fewer hops comes first, and a further hop only appends. */
  lemma {:induction false} MoreHopsOnlyAppend(active: seq<Triple>, seed: string, hops: nat, more: nat)
    requires hops <= more
    ensures Neighbourhood(active, seed, hops) <= Neighbourhood(active, seed, more)
  {
    if seed != "" && hops > 0 { LayersAppend(active, Walk({seed}, [], [seed]), hops, more); }
  }

  lemma {:induction false} LayersAppend(active: seq<Triple>, w: Walk, hops: nat, more: nat)
    requires hops <= more
    ensures Layers(active, w, hops) <= Layers(active, w, more)
    decreases hops
  {
    if hops == 0 {
      LayersPrefix(active, w, more);
    } else if w.next != [] {
      LayersAppend(active, Expand(active, w.(next := []), w.next), hops - 1, more - 1);
    }
  }

  // ---------------------------------------------------------------- the traversal

  lemma {:induction false} VisitAllPrefix(w: Walk, ts: seq<Triple>)
    ensures w.out <= VisitAll(w, ts).out
    decreases |ts|
  {
    if ts != [] { VisitAllPrefix(Visit(w, ts[0]), ts[1..]); }
  }

  lemma {:induction false} ExpandPrefix(active: seq<Triple>, w: Walk, frontier: seq<string>)
    ensures w.out <= Expand(active, w, frontier).out
    decreases |frontier|
  {
    if frontier != [] {
      VisitAllPrefix(w, Incident(active, frontier[0]));
      ExpandPrefix(active, VisitAll(w, Incident(active, frontier[0])), frontier[1..]);
    }
  }

  lemma {:induction false} LayersPrefix(active: seq<Triple>, w: Walk, hops: nat)
    ensures w.out <= Layers(active, w, hops)
    decreases hops
  {
    if hops > 0 && w.next != [] {
      ExpandPrefix(active, w.(next := []), w.next);
      LayersPrefix(active, Expand(active, w.(next := []), w.next), hops - 1);
    }
  }

  method IndexIncident(active: seq<Triple>) returns (incident: map<string, seq<Triple>>)
    ensures forall v :: Incident(active, v) == if v in incident then incident[v] else []
  {
    incident := map[];
    for i := 0 to |active|
      invariant forall v :: Incident(active[..i], v) == if v in incident then incident[v] else []
    {
      var t := active[i];
      assert active[..i + 1][..i] == active[..i];
      ghost var before := incident;
      incident := incident[t.s := (if t.s in incident then incident[t.s] else []) + [t]];
      if t.o != t.s {
        incident := incident[t.o := (if t.o in incident then incident[t.o] else []) + [t]];
      }
      forall v ensures Incident(active[..i + 1], v) == if v in incident then incident[v] else [] {
        assert Incident(active[..i], v) == if v in before then before[v] else [];
      }
    }
    assert active[..|active|] == active;
  }

  /** The cap was met at `stopped`, and the uncapped traversal went on to collect more. */
  ghost predicate CutShort(stopped: seq<Triple>, uncapped: seq<Triple>, max: int) {
    |stopped| == max && stopped <= uncapped && |stopped| < |uncapped|
  }

  lemma {:induction false} CutIsPrefix(stopped: seq<Triple>, layer: seq<Triple>, all: seq<Triple>, max: int)
    requires CutShort(stopped, layer, max) && layer <= all
    ensures |all| > max >= 0 && stopped == all[..max]
  {
  }

  /** The innermost loop: collect one node's edges. */
  method CollectEdges(w: Walk, seen: set<Triple>, edges: seq<Triple>, max: int)
    returns (w': Walk, seen': set<Triple>, full: bool)
    requires seen == SetOf(w.out) && (max > 0 ==> |w.out| <= max)
    ensures !full ==> w' == VisitAll(w, edges) && seen' == SetOf(w'.out) && (max > 0 ==> |w'.out| <= max)
    ensures full ==> max > 0 && CutShort(w'.out, VisitAll(w, edges).out, max)
  {
    w', seen', full := w, seen, false;
    for j := 0 to |edges|
      invariant seen' == SetOf(w'.out) && (max > 0 ==> |w'.out| <= max) && !full
      invariant VisitAll(w, edges) == VisitAll(w', edges[j..])
    {
      var t := edges[j];
      assert edges[j..][1..] == edges[j + 1..];
      VisitAllPrefix(Visit(w', t), edges[j + 1..]);
      if t in seen' { continue; }
      if max > 0 && |w'.out| >= max {
        full := true;
        return;
      }
      seen' := seen' + {t};
      w' := w'.(out := w'.out + [t]);
      if t.s != "" && t.s !in w'.visited { w' := w'.(visited := w'.visited + {t.s}, next := w'.next + [t.s]); }
      if t.o != "" && t.o !in w'.visited { w' := w'.(visited := w'.visited + {t.o}, next := w'.next + [t.o]); }
    }
  }

  /** The middle loop: expand one layer. */
  method ExpandLayer(active: seq<Triple>, incident: map<string, seq<Triple>>, w: Walk, seen: set<Triple>,
                     frontier: seq<string>, max: int)
    returns (w': Walk, seen': set<Triple>, full: bool)
    requires forall v :: Incident(active, v) == if v in incident then incident[v] else []
    requires seen == SetOf(w.out) && (max > 0 ==> |w.out| <= max)
    ensures !full ==> w' == Expand(active, w, frontier) && seen' == SetOf(w'.out) && (max > 0 ==> |w'.out| <= max)
    ensures full ==> max > 0 && CutShort(w'.out, Expand(active, w, frontier).out, max)
  {
    w', seen', full := w, seen, false;
    for i := 0 to |frontier|
      invariant seen' == SetOf(w'.out) && (max > 0 ==> |w'.out| <= max) && !full
      invariant Expand(active, w, frontier) == Expand(active, w', frontier[i..])
    {
      var edges := if frontier[i] in incident then incident[frontier[i]] else [];
      assert edges == Incident(active, frontier[i]);
      assert frontier[i..][1..] == frontier[i + 1..];
      ExpandPrefix(active, VisitAll(w', edges), frontier[i + 1..]);
      w', seen', full := CollectEdges(w', seen', edges, max);
      if full { return; }
    }
  }

  /** With a cap the result is the matching prefix of the uncapped list, and truncation is
      reported exactly when something was left out. */
  method Subgraph(active: seq<Triple>, seed: string, hops: int, max: int)
    returns (triples: seq<Triple>, truncated: bool)
    ensures var all := Neighbourhood(active, seed, hops);
            if max <= 0 then triples == all && !truncated
            else triples == all[..if |all| < max then |all| else max] && (truncated <==> |all| > max)
  {
    triples, truncated := [], false;
    if seed == "" || hops <= 0 { return; }
    var incident := IndexIncident(active);
    var w, seen: set<Triple> := Walk({seed}, [], [seed]), {};
    ghost var all := Neighbourhood(active, seed, hops);
    var h := 0;
    while h < hops && |w.next| > 0
      invariant 0 <= h <= hops && seen == SetOf(w.out) && (max > 0 ==> |w.out| <= max)
      invariant all == Layers(active, w, hops - h)
    {
      ghost var layer := Expand(active, w.(next := []), w.next).out;
      LayersPrefix(active, Expand(active, w.(next := []), w.next), hops - h - 1);
      w, seen, truncated := ExpandLayer(active, incident, w.(next := []), seen, w.next, max);
      if truncated {
        CutIsPrefix(w.out, layer, all, max);
        return w.out, true;
      }
      h := h + 1;
    }
    triples := w.out;
    assert all[..|all|] == all;
  }
}
