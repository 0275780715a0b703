/** Clock readings that reach the claim store out of order: exactly which of them let one key be won
    twice within a time to live. The claim loop reads the clock before it enters the store, so no
    lock orders the readings. */
module ClaimTiming {
  import opened Common
  import opened Idempotency

  function RunOf<K(==), R>(codec: Codec<R>, cap: int, s: Sys<K, R>, es: seq<Event<R>>): Sys<K, R> {
    if es == [] then s else Next(codec, cap, RunOf(codec, cap, s, es[..|es| - 1]), es[|es| - 1])
  }

  /** The event reaches the store as a claim attempt. */
  predicate Asks<K, R>(t: Sys<K, R>, e: Event<R>) {
    e.Ask? && !e.unavailable && e.c < |t.callers| && Unsettled(t.callers[e.c].phase)
  }

  /** A clock reading presented to the store, and the expiry asked for with it. */
  datatype Reading = Reading(now: int, expiry: int)

  function ReadingOf<K, R>(t: Sys<K, R>, e: Event<R>): Reading
    requires Asks(t, e)
  {
    Reading(e.now, e.now + t.callers[e.c].ttl)
  }

  /** The readings that reach the store in a run, in order of arrival. */
  function ReadingsOf<K(==), R>(codec: Codec<R>, cap: int, s: Sys<K, R>, es: seq<Event<R>>): seq<Reading> {
    if es == [] then []
    else
      var n := |es| - 1;
      var t := RunOf(codec, cap, s, es[..n]);
      ReadingsOf(codec, cap, s, es[..n]) + if Asks(t, es[n]) then [ReadingOf(t, es[n])] else []
  }

  /** A reading within the time to live of the first arrives after one that is past it. */
  predicate Overtaken(rs: seq<Reading>, i: nat, j: nat, k: nat) {
    i < j < k < |rs| && rs[k].now <= rs[i].expiry < rs[j].now
  }

  ghost predicate Late(rs: seq<Reading>) {
    exists i: nat, j: nat, k: nat :: Overtaken(rs, i, j, k)
  }

  // ---------------------------------------------------------------- no late reading is enough

  /** Generation `g` was won with reading `i`. */
  predicate WonBy<K, R>(rs: seq<Reading>, g: Gen<K, R>, i: nat) {
    i < |rs| && rs[i] == Reading(g.wonAt, g.expiry)
  }

  /** Reading `j` swept generation `g`, won with reading `i`, out of the store. */
  predicate Swept<K, R>(rs: seq<Reading>, g: Gen<K, R>, i: nat, j: nat) {
    i < j < |rs| && rs[j].now > g.expiry
  }

  predicate Stored<K(==), R>(claims: Claims<K>, g: Gen<K, R>) {
    g.key in claims && claims[g.key].expiry == g.expiry
  }

  /** A generation is in the store, or some reading past its expiry has swept it. */
  ghost predicate Accounted<K, R>(rs: seq<Reading>, claims: Claims<K>, g: Gen<K, R>) {
    exists i: nat :: WonBy(rs, g, i) && (Stored(claims, g) || exists j: nat :: Swept(rs, g, i, j))
  }

  ghost predicate Tracked<K, R>(rs: seq<Reading>, t: Sys<K, R>) {
    forall g :: 0 <= g < |t.gens| ==> Accounted(rs, t.claims, t.gens[g])
  }

  predicate SameClaim<K(==), R>(g: Gen<K, R>, g': Gen<K, R>) {
    g'.key == g.key && g'.wonAt == g.wonAt && g'.expiry == g.expiry
  }

  /** What was accounted for still is, if the store only loses claims to a reading past their expiry. */
  lemma {:induction false} ReadingAccounts<K(!new), R>(rs: seq<Reading>, x: Reading, claims: Claims<K>,
                                                       claims': Claims<K>, g: Gen<K, R>)
    requires Accounted(rs, claims, g) && (Stored(claims, g) ==> Stored(claims', g) || x.now > g.expiry)
    ensures Accounted(rs + [x], claims', g)
  {
    var i: nat :| WonBy(rs, g, i) && (Stored(claims, g) || exists j: nat :: Swept(rs, g, i, j));
    assert WonBy(rs + [x], g, i);
    if Stored(claims, g) {
      if !Stored(claims', g) { assert Swept(rs + [x], g, i, |rs|); }
    } else {
      var j: nat :| Swept(rs, g, i, j);
      assert Swept(rs + [x], g, i, j);
    }
  }

  lemma {:induction false} StillAccounted<K(!new), R>(rs: seq<Reading>, claims: Claims<K>, claims': Claims<K>,
                                                      g: Gen<K, R>, g': Gen<K, R>)
    requires Accounted(rs, claims, g) && SameClaim(g, g') && (Stored(claims, g) ==> Stored(claims', g))
    ensures Accounted(rs, claims', g')
  {
    var i: nat :| WonBy(rs, g, i) && (Stored(claims, g) || exists j: nat :: Swept(rs, g, i, j));
    assert WonBy(rs, g', i);
    if !Stored(claims, g) {
      var j: nat :| Swept(rs, g, i, j);
      assert Swept(rs, g', i, j);
    }
  }

  /** A claim attempt keeps a stored generation or presents a reading past its expiry. */
  lemma {:induction false} AttemptSweeps<K(!new), R>(m: Claims<K>, cap: int, key: K, expiry: int, now: int,
                                                     g: Gen<K, R>)
    requires Stored(m, g)
    ensures Stored(Claimed(m, cap, key, expiry, now), g) || now > g.expiry
  {
  }

  lemma {:induction false} CompletionKeeps<K(!new), R>(m: Claims<K>, key: K, result: Bytes, expiry: int, now: int,
                                                       g: Gen<K, R>)
    requires Stored(m, g)
    ensures Stored(Completed(m, key, result, expiry, now), g)
  {
  }

  lemma {:induction false} AskTracked<K(!new), R>(codec: Codec<R>, cap: int, rs: seq<Reading>, t: Sys<K, R>,
                                                  e: Event<R>)
    requires Tracked(rs, t) && Asks(t, e)
    ensures Tracked(rs + [ReadingOf(t, e)], AskNext(codec, cap, t, e.c, e.now))
  {
    var t', x, me := AskNext(codec, cap, t, e.c, e.now), ReadingOf(t, e), t.callers[e.c];
    forall g | 0 <= g < |t'.gens| ensures Accounted(rs + [x], t'.claims, t'.gens[g]) {
      if g < |t.gens| {
        if Stored(t.claims, t.gens[g]) { AttemptSweeps(t.claims, cap, me.key, x.expiry, e.now, t.gens[g]); }
        ReadingAccounts(rs, x, t.claims, t'.claims, t.gens[g]);
      } else {
        assert WonBy(rs + [x], t'.gens[g], |rs|) && Stored(t'.claims, t'.gens[g]);
      }
    }
  }

  predicate Finishes<K, R>(t: Sys<K, R>, e: Event<R>) {
    e.Finish? && e.c < |t.callers| && t.callers[e.c].phase.Executing? && t.callers[e.c].phase.gen < |t.gens|
  }

  lemma {:induction false} FinishTracked<K(!new), R>(codec: Codec<R>, rs: seq<Reading>, t: Sys<K, R>, e: Event<R>)
    requires Tracked(rs, t) && Finishes(t, e)
    ensures Tracked(rs, FinishNext(codec, t, e.c, e.now, e.outcome, e.lost))
  {
    var t' := FinishNext(codec, t, e.c, e.now, e.outcome, e.lost);
    var me := t.callers[e.c];
    forall g | 0 <= g < |t'.gens| ensures Accounted(rs, t'.claims, t'.gens[g]) {
      if Stored(t.claims, t.gens[g]) {
        CompletionKeeps(t.claims, me.key, Payload(codec, e.outcome), t.gens[me.phase.gen].expiry, e.now, t.gens[g]);
      }
      StillAccounted(rs, t.claims, t'.claims, t.gens[g], t'.gens[g]);
    }
  }

  lemma {:induction false} NextTracked<K(!new), R>(codec: Codec<R>, cap: int, rs: seq<Reading>, t: Sys<K, R>,
                                                   e: Event<R>)
    requires Tracked(rs, t)
    ensures Tracked(rs + if Asks(t, e) then [ReadingOf(t, e)] else [], Next(codec, cap, t, e))
  {
    assert rs + [] == rs;
    if Asks(t, e) {
      AskTracked(codec, cap, rs, t, e);
    } else if Finishes(t, e) {
      FinishTracked(codec, rs, t, e);
    }
  }

  /** A new win is more than a time to live after every earlier one on its key. */
  lemma {:induction false} WinIsApart<K(!new), R>(cap: int, rs: seq<Reading>, t: Sys<K, R>, e: Event<R>, g: nat)
    requires Tracked(rs, t) && Asks(t, e) && !Late(rs + [ReadingOf(t, e)])
    requires AnswerTo(t.claims, cap, t.callers[e.c].key, e.now) == Won
    requires g < |t.gens| && t.gens[g].key == t.callers[e.c].key
    ensures e.now > t.gens[g].expiry
  {
    if !Stored(t.claims, t.gens[g]) {
      var i: nat :| WonBy(rs, t.gens[g], i) && exists j: nat :: Swept(rs, t.gens[g], i, j);
      var j: nat :| Swept(rs, t.gens[g], i, j);
      assert !Overtaken(rs + [ReadingOf(t, e)], i, j, |rs|);
    }
  }

  lemma {:induction false} NextApart<K(!new), R>(codec: Codec<R>, cap: int, rs: seq<Reading>, t: Sys<K, R>, e: Event<R>)
    requires Tracked(rs, t) && Separated(t.gens) && !Late(rs + if Asks(t, e) then [ReadingOf(t, e)] else [])
    ensures Separated(Next(codec, cap, t, e).gens)
  {
    if Asks(t, e) && AnswerTo(t.claims, cap, t.callers[e.c].key, e.now) == Won {
      var gens := Next(codec, cap, t, e).gens;
      forall i, j | 0 <= i < j < |gens| && gens[i].key == gens[j].key ensures gens[j].wonAt > gens[i].expiry {
        if j == |t.gens| { WinIsApart(cap, rs, t, e, i); }
      }
    }
  }

  lemma {:induction false} LatePrefix(rs: seq<Reading>, more: seq<Reading>)
    requires Late(rs)
    ensures Late(rs + more)
  {
    var i: nat, j: nat, k: nat :| Overtaken(rs, i, j, k);
    assert Overtaken(rs + more, i, j, k);
  }

  lemma {:induction false} RunTracked<K(!new), R>(codec: Codec<R>, cap: int, s: Sys<K, R>, es: seq<Event<R>>)
    requires Start(s)
    ensures Tracked(ReadingsOf(codec, cap, s, es), RunOf(codec, cap, s, es))
    decreases |es|
  {
    if es != [] {
      var n := |es| - 1;
      RunTracked(codec, cap, s, es[..n]);
      NextTracked(codec, cap, ReadingsOf(codec, cap, s, es[..n]), RunOf(codec, cap, s, es[..n]), es[n]);
    }
  }

  /** Wins on one key are more than a time to live apart in every run, ordered or not, in which no
      reading reaches the store late: whatever the callers, their times to live, the store's
      capacity, and the completions, refusals and retries in between. */
  lemma {:induction false} NotLateKeepsApart<K(!new), R>(codec: Codec<R>, cap: int, s: Sys<K, R>, es: seq<Event<R>>)
    requires Start(s) && !Late(ReadingsOf(codec, cap, s, es))
    ensures Separated(RunOf(codec, cap, s, es).gens)
    decreases |es|
  {
    if es != [] {
      var n := |es| - 1;
      var rs, t := ReadingsOf(codec, cap, s, es[..n]), RunOf(codec, cap, s, es[..n]);
      if Late(rs) { LatePrefix(rs, if Asks(t, es[n]) then [ReadingOf(t, es[n])] else []); }
      NotLateKeepsApart(codec, cap, s, es[..n]);
      RunTracked(codec, cap, s, es[..n]);
      NextApart(codec, cap, rs, t, es[n]);
    }
  }

  ghost predicate InClockOrder<R>(es: seq<Event<R>>) {
    forall i: nat, j: nat :: i < j < |es| && es[i].Ask? && es[j].Ask? ==> es[i].now <= es[j].now
  }

  predicate ReadBy<R>(es: seq<Event<R>>, x: Reading, i: nat) {
    i < |es| && es[i].Ask? && es[i].now == x.now
  }

  /** The reading is some event's. */
  ghost predicate ReadIn<R>(es: seq<Event<R>>, x: Reading) {
    exists i: nat :: ReadBy(es, x, i)
  }

  lemma {:induction false} ReadBefore<R>(es: seq<Event<R>>, n: nat, x: Reading)
    requires n < |es| && InClockOrder(es) && ReadIn(es[..n], x)
    ensures ReadIn(es, x) && (es[n].Ask? ==> x.now <= es[n].now)
  {
    var i: nat :| ReadBy(es[..n], x, i);
    assert ReadBy(es, x, i);
  }

  ghost predicate Rising(rs: seq<Reading>) {
    forall i, j :: 0 <= i < j < |rs| ==> rs[i].now <= rs[j].now
  }

  lemma {:induction false} OrderedRises<K(!new), R>(codec: Codec<R>, cap: int, s: Sys<K, R>, es: seq<Event<R>>)
    requires InClockOrder(es)
    ensures Rising(ReadingsOf(codec, cap, s, es))
    ensures forall x :: x in ReadingsOf(codec, cap, s, es) ==> ReadIn(es, x)
    decreases |es|
  {
    if es != [] {
      var n := |es| - 1;
      var front, t := ReadingsOf(codec, cap, s, es[..n]), RunOf(codec, cap, s, es[..n]);
      OrderedRises(codec, cap, s, es[..n]);
      forall x | x in front ensures ReadIn(es, x) && (es[n].Ask? ==> x.now <= es[n].now) { ReadBefore(es, n, x); }
      if Asks(t, es[n]) {
        assert ReadBy(es, ReadingOf(t, es[n]), n);
        assert forall m :: 0 <= m < |front| ==> front[m] in front;
      }
    }
  }

  /** Readings that arrive in order are never late, so the guarantee holds of them. */
  lemma {:induction false} InOrderKeepsApart<K(!new), R>(codec: Codec<R>, cap: int, s: Sys<K, R>, es: seq<Event<R>>)
    requires Start(s) && InClockOrder(es)
    ensures Separated(RunOf(codec, cap, s, es).gens)
  {
    OrderedRises(codec, cap, s, es);
    NotLateKeepsApart(codec, cap, s, es);
  }

  // ---------------------------------------------------------------- a late reading does harm

  /** One caller for each reading, all with one time to live. */
  function Callers<R>(ttl: int, keys: seq<nat>): Sys<nat, R> {
    Sys(map[], 0, seq(|keys|, i requires 0 <= i < |keys| => Caller(keys[i], ttl, Asking)), [], map[])
  }

  function Attempts<R>(readings: seq<int>): seq<Event<R>> {
    seq(|readings|, i requires 0 <= i < |readings| => Ask(i, readings[i], false))
  }

  /** The run in which caller `i` asks for `keys[i]` with reading `i`, in that order. */
  function AskRun<R>(codec: Codec<R>, cap: int, ttl: int, keys: seq<nat>, readings: seq<int>): Sys<nat, R>
    requires |keys| == |readings|
  {
    RunOf(codec, cap, Callers(ttl, keys), Attempts(readings))
  }

  predicate LateAt(ttl: int, r: seq<int>, i: nat, j: nat, k: nat) {
    i < j < k < |r| && r[k] <= r[i] + ttl < r[j]
  }

  ghost predicate LateReading(ttl: int, r: seq<int>) {
    exists i: nat, j: nat, k: nat :: LateAt(ttl, r, i, j, k)
  }

  /** Callers `i` and `k` share a key; everybody else has a key of their own. */
  function TwoShare(n: nat, i: nat, k: nat): seq<nat> {
    seq(n, m requires 0 <= m < n => if m == k then i else m)
  }

  predicate WonAt<R>(g: Gen<nat, R>, key: nat, now: int, ttl: int) {
    g.key == key && g.wonAt == now && g.expiry == now + ttl
  }

  /** After `n` attempts, all won: one generation for each, nobody after them served, and the
      shared key gone since reading `j`. */
  ghost predicate AllWon<R>(t: Sys<nat, R>, ttl: int, keys: seq<nat>, r: seq<int>, n: nat, i: nat, j: nat) {
    && n <= |keys| == |r| && |t.callers| == |keys| && |t.gens| == n
    && (forall c :: n <= c < |keys| ==> t.callers[c] == Caller(keys[c], ttl, Asking))
    && (forall g :: 0 <= g < n ==> WonAt(t.gens[g], keys[g], r[g], ttl))
    && ClaimsOf(t.claims, ttl, r, n, i, j)
  }

  /** The store's share of `AllWon`. */
  ghost predicate ClaimsOf(m: Claims<nat>, ttl: int, r: seq<int>, n: nat, i: nat, j: nat) {
    n <= |r| && (forall x :: x in m ==> x < n && m[x].expiry == r[x] + ttl) && |m| <= n && (j < n ==> i !in m)
  }

  lemma {:induction false} OneMoreClaim(m: Claims<nat>, cap: int, ttl: int, r: seq<int>, n: nat, i: nat, j: nat, k: nat)
    requires LateAt(ttl, r, i, j, k) && n < k && cap >= |r| && ClaimsOf(m, ttl, r, n, i, j)
    ensures AnswerTo(m, cap, n, r[n]) == Won
    ensures ClaimsOf(Claimed(m, cap, n, r[n] + ttl, r[n]), ttl, r, n + 1, i, j)
  {
    FewerLive(m, r[n]);
    var live := Expire(m, r[n]);
    assert n !in live;
    assert |live[n := Claim(r[n] + ttl, false, [])]| == |live| + 1;
  }

  lemma {:induction false} WinShape<R>(codec: Codec<R>, cap: int, t: Sys<nat, R>, c: nat, key: nat, ttl: int, now: int)
    requires c < |t.callers| && t.callers[c] == Caller(key, ttl, Asking) && AnswerTo(t.claims, cap, key, now) == Won
    ensures var t' := Next(codec, cap, t, Ask(c, now, false));
            && t'.gens == t.gens + [Gen(key, c, now, now + ttl, None)]
            && t'.callers == t.callers[c := Caller(key, ttl, Executing(|t.gens|))]
            && t'.claims == Claimed(t.claims, cap, key, now + ttl, now)
  {
  }

  lemma {:induction false} OneMore<R>(codec: Codec<R>, cap: int, t: Sys<nat, R>, ttl: int, r: seq<int>, n: nat, i: nat,
                                      j: nat, k: nat)
    requires LateAt(ttl, r, i, j, k) && n < k && cap >= |r|
    requires AllWon(t, ttl, TwoShare(|r|, i, k), r, n, i, j)
    ensures AllWon(Next(codec, cap, t, Ask(n, r[n], false)), ttl, TwoShare(|r|, i, k), r, n + 1, i, j)
  {
    OneMoreClaim(t.claims, cap, ttl, r, n, i, j, k);
    var keys := TwoShare(|r|, i, k);
    assert keys[n] == n;
    WinShape(codec, cap, t, n, n, ttl, r[n]);
    var gens := t.gens + [Gen(n, n, r[n], r[n] + ttl, None)];
    forall g | 0 <= g < n + 1 ensures WonAt(gens[g], keys[g], r[g], ttl) {
      if g < n { assert gens[g] == t.gens[g]; }
    }
  }

  lemma {:induction false} Attempted<R>(codec: Codec<R>, cap: int, s: Sys<nat, R>, r: seq<int>, n: nat)
    requires n < |r|
    ensures RunOf(codec, cap, s, Attempts(r)[..n + 1]) ==
            Next(codec, cap, RunOf(codec, cap, s, Attempts(r)[..n]), Ask(n, r[n], false))
  {
    var es: seq<Event<R>> := Attempts(r);
    assert es[..n + 1][..n] == es[..n];
  }

  lemma {:induction false} EverybodyWins<R>(codec: Codec<R>, cap: int, ttl: int, r: seq<int>, n: nat, i: nat, j: nat,
                                            k: nat)
    requires LateAt(ttl, r, i, j, k) && n <= k && cap >= |r|
    ensures AllWon(RunOf(codec, cap, Callers(ttl, TwoShare(|r|, i, k)), Attempts(r)[..n]), ttl, TwoShare(|r|, i, k), r,
            n, i, j)
    decreases n
  {
    if n > 0 {
      EverybodyWins(codec, cap, ttl, r, n - 1, i, j, k);
      var s: Sys<nat, R> := Callers(ttl, TwoShare(|r|, i, k));
      Attempted(codec, cap, s, r, n - 1);
      OneMore(codec, cap, RunOf(codec, cap, s, Attempts(r)[..n - 1]), ttl, r, n - 1, i, j, k);
    }
  }

  /** The late caller wins the key that caller `i` still holds a live claim on. */
  lemma {:induction false} SecondWin<R>(codec: Codec<R>, cap: int, t: Sys<nat, R>, ttl: int, r: seq<int>, i: nat,
                                        j: nat, k: nat)
    requires LateAt(ttl, r, i, j, k) && cap >= |r| && AllWon(t, ttl, TwoShare(|r|, i, k), r, k, i, j)
    ensures !Separated(Next(codec, cap, t, Ask(k, r[k], false)).gens)
  {
    FewerLive(t.claims, r[k]);
    assert AnswerTo(t.claims, cap, i, r[k]) == Won;
    var gens := Next(codec, cap, t, Ask(k, r[k], false)).gens;
    assert WonAt(t.gens[i], i, r[i], ttl);
    assert gens[i].key == gens[k].key == i && gens[k].wonAt == r[k] <= gens[i].expiry;
  }

  lemma {:induction false} NextStaysUnseparated<K(!new), R>(codec: Codec<R>, cap: int, t: Sys<K, R>, e: Event<R>)
    requires !Separated(t.gens)
    ensures !Separated(Next(codec, cap, t, e).gens)
  {
    var gens := Next(codec, cap, t, e).gens;
    var i, j :| 0 <= i < j < |t.gens| && t.gens[i].key == t.gens[j].key && t.gens[j].wonAt <= t.gens[i].expiry;
    assert gens[i].key == gens[j].key && gens[j].wonAt <= gens[i].expiry;
  }

  lemma {:induction false} RunSnoc<K(!new), R>(codec: Codec<R>, cap: int, s: Sys<K, R>, es: seq<Event<R>>, m: nat)
    requires m < |es|
    ensures RunOf(codec, cap, s, es[..m + 1]) == Next(codec, cap, RunOf(codec, cap, s, es[..m]), es[m])
  {
    assert es[..m + 1][..m] == es[..m];
  }

  ghost predicate ApartAt<K(!new), R>(codec: Codec<R>, cap: int, s: Sys<K, R>, es: seq<Event<R>>, m: nat) {
    m <= |es| && Separated(RunOf(codec, cap, s, es[..m]).gens)
  }

  lemma {:induction false} NotApartStep<K(!new), R>(codec: Codec<R>, cap: int, s: Sys<K, R>, es: seq<Event<R>>, m: nat)
    requires m < |es| && !ApartAt(codec, cap, s, es, m)
    ensures !ApartAt(codec, cap, s, es, m + 1)
  {
    RunSnoc(codec, cap, s, es, m);
    NextStaysUnseparated(codec, cap, RunOf(codec, cap, s, es[..m]), es[m]);
  }

  lemma {:induction false} NeverApartAgain<K(!new), R>(codec: Codec<R>, cap: int, s: Sys<K, R>, es: seq<Event<R>>,
                                                       n: nat, m: nat)
    requires n <= m <= |es| && !ApartAt(codec, cap, s, es, n)
    ensures !ApartAt(codec, cap, s, es, m)
    decreases m
  {
    if n < m {
      NeverApartAgain(codec, cap, s, es, n, m - 1);
      NotApartStep(codec, cap, s, es, m - 1);
    }
  }

  lemma {:induction false} LateDoesHarm<R>(codec: Codec<R>, cap: int, ttl: int, r: seq<int>, i: nat, j: nat, k: nat)
    requires LateAt(ttl, r, i, j, k) && cap >= |r|
    ensures !Separated(AskRun(codec, cap, ttl, TwoShare(|r|, i, k), r).gens)
  {
    var s: Sys<nat, R> := Callers(ttl, TwoShare(|r|, i, k));
    EverybodyWins(codec, cap, ttl, r, k, i, j, k);
    SecondWin(codec, cap, RunOf(codec, cap, s, Attempts(r)[..k]), ttl, r, i, j, k);
    Attempted(codec, cap, s, r, k);
    NeverApartAgain(codec, cap, s, Attempts(r), k + 1, |r|);
    assert Attempts<R>(r)[..|r|] == Attempts(r);
  }

  // ---------------------------------------------------------------- the exact condition

  ghost predicate ApartForAllKeys<R>(codec: Codec<R>, cap: int, ttl: int, r: seq<int>) {
    forall keys: seq<nat> :: |keys| == |r| ==> Separated(AskRun(codec, cap, ttl, keys, r).gens)
  }

  /** Nobody asks twice, so every attempt's reading reaches the store. */
  lemma {:induction false} AttemptsRead<R>(codec: Codec<R>, cap: int, ttl: int, keys: seq<nat>, r: seq<int>, n: nat)
    requires n <= |keys| == |r|
    ensures var t := RunOf<nat, R>(codec, cap, Callers(ttl, keys), Attempts(r)[..n]);
            |t.callers| == |keys| && forall c :: n <= c < |keys| ==> t.callers[c] == Caller(keys[c], ttl, Asking)
    ensures var rs := ReadingsOf<nat, R>(codec, cap, Callers(ttl, keys), Attempts(r)[..n]);
            |rs| == n && forall i :: 0 <= i < n ==> rs[i] == Reading(r[i], r[i] + ttl)
    decreases n
  {
    if n > 0 {
      AttemptsRead(codec, cap, ttl, keys, r, n - 1);
      Attempted(codec, cap, Callers(ttl, keys), r, n - 1);
      assert Attempts<R>(r)[..n][..n - 1] == Attempts<R>(r)[..n - 1];
    }
  }

  lemma {:induction false} AttemptsNotLate<R>(codec: Codec<R>, cap: int, ttl: int, keys: seq<nat>, r: seq<int>)
    requires |keys| == |r| && !LateReading(ttl, r)
    ensures !Late(ReadingsOf<nat, R>(codec, cap, Callers(ttl, keys), Attempts(r)))
  {
    AttemptsRead(codec, cap, ttl, keys, r, |r|);
    assert Attempts<R>(r)[..|r|] == Attempts<R>(r);
    var rs := ReadingsOf<nat, R>(codec, cap, Callers(ttl, keys), Attempts(r));
    forall i: nat, j: nat, k: nat ensures !Overtaken(rs, i, j, k) {
      assert !LateAt(ttl, r, i, j, k);
    }
  }

  /** Readings that reach a store with room for them, in this order, keep the wins on every key more
      than a time to live apart, whatever keys they are for, if and only if none of them is late. */
  lemma {:induction false} ApartIff<R>(codec: Codec<R>, cap: int, ttl: int, r: seq<int>)
    requires ttl > 0 && cap >= |r|
    ensures ApartForAllKeys(codec, cap, ttl, r) <==> !LateReading(ttl, r)
  {
    if LateReading(ttl, r) {
      var i: nat, j: nat, k: nat :| LateAt(ttl, r, i, j, k);
      LateDoesHarm(codec, cap, ttl, r, i, j, k);
      assert |TwoShare(|r|, i, k)| == |r|;
    } else {
      forall keys: seq<nat> | |keys| == |r| ensures Separated(AskRun(codec, cap, ttl, keys, r).gens) {
        AttemptsNotLate(codec, cap, ttl, keys, r);
        NotLateKeepsApart(codec, cap, Callers(ttl, keys), Attempts(r));
      }
    }
  }

  /** The shortest case: a caller that read the clock at 5 reaches the store after one that read 20,
      and wins again the key that was won at 0 for 10. */
  lemma {:induction false} LateReadingBreaksIt<R>(codec: Codec<R>)
    ensures LateAt(10, [0, 20, 5], 0, 1, 2)
    ensures !Separated(AskRun(codec, 4, 10, [0, 1, 0], [0, 20, 5]).gens)
  {
    var r := [0, 20, 5];
    LateDoesHarm(codec, 4, 10, r, 0, 1, 2);
    assert TwoShare(3, 0, 2) == [0, 1, 0];
  }
}
