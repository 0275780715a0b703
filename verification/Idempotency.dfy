/** At-most-once execution: the bounded claim store and any number of callers sharing it.
    Times are unix nanoseconds; JSON encoding is a parameter. */
module Idempotency {
  import opened Common
  import opened Keys

  type Bytes = seq<int>

  // ---------------------------------------------------------------- the claim store

  datatype Claim = Claim(expiry: int, done: bool, result: Bytes)
  type Claims<K> = map<K, Claim>

  /** What a claim attempt is told. */
  datatype Answer = Won | Pending | Done(result: Bytes) | Full

  function Expire<K(==)>(m: Claims<K>, now: int): Claims<K> {
    map k | k in m && now <= m[k].expiry :: m[k]
  }

  function AnswerTo<K(==)>(m: Claims<K>, cap: int, key: K, now: int): Answer {
    var live := Expire(m, now);
    if key in live then (if live[key].done then Done(live[key].result) else Pending)
    else if |live| >= cap then Full
    else Won
  }

  function Claimed<K(==)>(m: Claims<K>, cap: int, key: K, expiry: int, now: int): Claims<K> {
    var live := Expire(m, now);
    if AnswerTo(m, cap, key, now) == Won then live[key := Claim(expiry, false, [])] else live
  }

  function Completed<K(==)>(m: Claims<K>, key: K, result: Bytes, expiry: int, now: int): Claims<K> {
    if key !in m || m[key].done || m[key].expiry != expiry || now > m[key].expiry then m
    else m[key := Claim(expiry, true, result)]
  }

  class MemClaimStore<K(==)> {
    const cap: int
    var claims: Claims<K>

    constructor (cap: int)
      ensures this.cap == cap && claims == map[]
    {
      this.cap, claims := cap, map[];
    }

    method TryClaim(key: K, expiry: int, now: int) returns (answer: Answer)
      modifies this
      ensures answer == AnswerTo(old(claims), cap, key, now)
      ensures claims == Claimed(old(claims), cap, key, expiry, now)
    {
      var todo := claims.Keys;
      while todo != {}
        invariant todo <= old(claims).Keys
        invariant forall k :: k in claims <==> k in old(claims) && (k in todo || now <= old(claims)[k].expiry)
        invariant forall k :: k in claims ==> claims[k] == old(claims)[k]
        decreases |todo|
      {
        var k :| k in todo;
        todo := todo - {k};
        if now > claims[k].expiry { claims := claims - {k}; }
      }
      assert claims == Expire(old(claims), now);
      if key in claims {
        var c := claims[key];
        return if c.done then Done(c.result) else Pending;
      }
      if |claims| >= cap { return Full; }
      claims := claims[key := Claim(expiry, false, [])];
      answer := Won;
    }

    method Complete(key: K, result: Bytes, expiry: int, now: int)
      modifies this
      ensures claims == Completed(old(claims), key, result, expiry, now)
    {
      if key !in claims { return; }
      var c := claims[key];
      if c.done || c.expiry != expiry || now > c.expiry { return; }
      claims := claims[key := c.(done := true, result := result)];
    }
  }

  // ---------------------------------------------------------------- recorded outcomes

  const MAX_CACHED := 65536

  datatype Outcome<R> = Value(result: R) | Error(text: string)

  datatype ClaimRecord<R> = ClaimRecord(result: Option<R>, err: string)

  datatype Codec<!R> = Codec(marshal: ClaimRecord<R> -> Option<Bytes>, unmarshal: Bytes -> Option<ClaimRecord<R>>)

  /** Whatever encodes, encodes to something and decodes to itself. */
  ghost predicate Faithful<R(!new)>(codec: Codec<R>) {
    forall rec :: codec.marshal(rec).Some? ==>
      |codec.marshal(rec).value| > 0 && codec.unmarshal(codec.marshal(rec).value) == Some(rec)
  }

  /** What a call that did not execute is answered with. */
  datatype Reply<R> = Replayed(outcome: Outcome<R>) | Uncacheable | Undecodable | Refused | Abandoned

  function Encode<R>(o: Outcome<R>): ClaimRecord<R> {
    match o case Value(r) => ClaimRecord(Some(r), "") case Error(text) => ClaimRecord(None, text)
  }

  predicate Cacheable<R>(codec: Codec<R>, o: Outcome<R>) {
    codec.marshal(Encode(o)).Some? && |codec.marshal(Encode(o)).value| <= MAX_CACHED
  }

  function Payload<R>(codec: Codec<R>, o: Outcome<R>): Bytes {
    if Cacheable(codec, o) then codec.marshal(Encode(o)).value else []
  }

  function Decode<R>(codec: Codec<R>, cached: Bytes): Reply<R> {
    if cached == [] then Uncacheable
    else
      match codec.unmarshal(cached)
      case None => Undecodable
      case Some(rec) =>
        if rec.err != "" then Replayed(Error(rec.err))
        else if rec.result.None? then Undecodable
        else Replayed(Value(rec.result.value))
  }

  /** A replay repeats the winner's outcome exactly when that outcome could be cached and is not
      an error with empty text; otherwise it is an error, never a result. */
  lemma {:induction false} ReplayExact<R(!new)>(codec: Codec<R>, o: Outcome<R>)
    requires Faithful(codec)
    ensures Decode(codec, Payload(codec, o)) == Replayed(o) <==>
            codec.marshal(Encode(o)).Some? && |codec.marshal(Encode(o)).value| <= 65536 && o != Error("")
    ensures Decode(codec, Payload(codec, o)) in {Replayed(o), Uncacheable, Undecodable}
  {
    if Cacheable(codec, o) {
      assert codec.unmarshal(codec.marshal(Encode(o)).value) == Some(Encode(o));
    }
  }

  // ---------------------------------------------------------------- callers sharing a store

  datatype Phase<R> =
    | Asking
    | Waiting
    | Executing(gen: nat)
    | Executed(gen: nat, outcome: Outcome<R>)
    | Answered(reply: Reply<R>)

  datatype Caller<K, R> = Caller(key: K, ttl: int, phase: Phase<R>)

  /** One winning claim: a generation of its key, and in the end the outcome of its execution. */
  datatype Gen<K, R> = Gen(key: K, winner: nat, wonAt: int, expiry: int, outcome: Option<Outcome<R>>)

  /** `owner` says which generation each stored claim belongs to. */
  datatype Sys<K, R> =
    Sys(claims: Claims<K>, clock: int, callers: seq<Caller<K, R>>, gens: seq<Gen<K, R>>, owner: map<K, nat>)

  datatype Event<R> =
    | Ask(c: nat, now: int, unavailable: bool)
    | Finish(c: nat, now: int, outcome: Outcome<R>, lost: bool)
    | Abandon(c: nat)

  function WithPhase<K, R>(s: Sys<K, R>, c: nat, p: Phase<R>): seq<Caller<K, R>>
    requires c < |s.callers|
  {
    s.callers[c := s.callers[c].(phase := p)]
  }

  /** One pass of the claim loop, with the clock reading it presents to the store. */
  function AskNext<K(==), R>(codec: Codec<R>, cap: int, s: Sys<K, R>, c: nat, now: int): Sys<K, R>
    requires c < |s.callers|
  {
    var me := s.callers[c];
    var expiry := now + me.ttl;
    var claims := Claimed(s.claims, cap, me.key, expiry, now);
    match AnswerTo(s.claims, cap, me.key, now)
    case Won =>
      Sys(claims, now, WithPhase(s, c, Executing(|s.gens|)), s.gens + [Gen(me.key, c, now, expiry, None)],
          Restrict(s.owner, claims)[me.key := |s.gens|])
    case Pending => Sys(claims, now, WithPhase(s, c, Waiting), s.gens, Restrict(s.owner, claims))
    case Done(cached) =>
      Sys(claims, now, WithPhase(s, c, Answered(Decode(codec, cached))), s.gens, Restrict(s.owner, claims))
    case Full => Sys(claims, now, WithPhase(s, c, Answered(Refused)), s.gens, Restrict(s.owner, claims))
  }

  function Restrict<K(==)>(owner: map<K, nat>, claims: Claims<K>): map<K, nat> {
    map k | k in owner && k in claims :: owner[k]
  }

  /** The winner's handler returned (or panicked) and its outcome is recorded, unless the store loses it. */
  function FinishNext<K(==), R>(codec: Codec<R>, s: Sys<K, R>, c: nat, now: int, o: Outcome<R>, lost: bool): Sys<K, R>
    requires c < |s.callers| && s.callers[c].phase.Executing? && s.callers[c].phase.gen < |s.gens|
  {
    var me := s.callers[c];
    var g := s.gens[me.phase.gen];
    var claims := if lost then s.claims else Completed(s.claims, me.key, Payload(codec, o), g.expiry, now);
    Sys(claims, now, WithPhase(s, c, Executed(me.phase.gen, o)), s.gens[me.phase.gen := g.(outcome := Some(o))],
        s.owner)
  }

  function Next<K(==), R>(codec: Codec<R>, cap: int, s: Sys<K, R>, e: Event<R>): Sys<K, R> {
    if e.c >= |s.callers| then s
    else
      var phase := s.callers[e.c].phase;
      match e
      case Ask(c, now, unavailable) =>
        if !(phase.Asking? || phase.Waiting?) then s
        else if unavailable then s.(clock := now, callers := WithPhase(s, c, Answered(Refused)))
        else AskNext(codec, cap, s, c, now)
      case Finish(c, now, o, lost) =>
        if phase.Executing? && phase.gen < |s.gens| then FinishNext(codec, s, c, now, o, lost) else s
      case Abandon(c) =>
        if phase.Waiting? then s.(callers := WithPhase(s, c, Answered(Abandoned))) else s
  }

  /** Readings reach the store in non-decreasing order. */
  predicate InOrder<K, R>(s: Sys<K, R>, e: Event<R>) {
    e.Abandon? || s.clock <= e.now
  }

  // ---------------------------------------------------------------- what every step keeps

  ghost predicate StoreOk<K(!new), R>(codec: Codec<R>, cap: int, s: Sys<K, R>) {
    && (0 < |s.claims| ==> |s.claims| <= cap)
    && s.owner.Keys == s.claims.Keys
    && (forall k :: k in s.claims ==>
          && s.owner[k] < |s.gens| && s.gens[s.owner[k]].key == k && s.gens[s.owner[k]].expiry == s.claims[k].expiry
          && (s.claims[k].done ==> s.gens[s.owner[k]].outcome.Some?
                                   && s.claims[k].result == Payload(codec, s.gens[s.owner[k]].outcome.value)))
  }

  /** Every generation still within its time to live is in the store, as itself. */
  ghost predicate LiveKept<K, R>(s: Sys<K, R>) {
    forall g :: 0 <= g < |s.gens| && s.clock <= s.gens[g].expiry ==>
      s.gens[g].key in s.claims && s.gens[g].key in s.owner && s.owner[s.gens[g].key] == g
  }

  /** Two wins on one key are more than the first one's time to live apart. */
  ghost predicate Separated<K, R>(gens: seq<Gen<K, R>>) {
    forall i, j :: 0 <= i < j < |gens| && gens[i].key == gens[j].key ==> gens[j].wonAt > gens[i].expiry
  }

  ghost predicate GensOk<K, R>(s: Sys<K, R>) {
    && Separated(s.gens)
    && (forall g :: 0 <= g < |s.gens| ==>
          && s.gens[g].winner < |s.callers| && s.gens[g].key == s.callers[s.gens[g].winner].key
          && s.gens[g].expiry == s.gens[g].wonAt + s.callers[s.gens[g].winner].ttl && s.gens[g].wonAt <= s.clock)
    && forall i, j :: 0 <= i < j < |s.gens| ==> s.gens[i].winner != s.gens[j].winner
  }

  /** A caller that executed holds its own outcome, under its own generation; every other caller
      executed nothing and, once answered, was served. */
  ghost predicate CallerOk<K, R>(codec: Codec<R>, s: Sys<K, R>, c: nat)
    requires c < |s.callers|
  {
    var me := s.callers[c];
    match me.phase
    case Executing(g) => g < |s.gens| && s.gens[g].winner == c && s.gens[g].outcome.None?
    case Executed(g, o) => g < |s.gens| && s.gens[g].winner == c && s.gens[g].outcome == Some(o)
    case Answered(reply) => Served(codec, s, c, reply) && forall g :: 0 <= g < |s.gens| ==> s.gens[g].winner != c
    case _ => forall g :: 0 <= g < |s.gens| ==> s.gens[g].winner != c
  }

  /** A caller that did not execute was refused, gave up, or got the outcome some winner of the
      same key recorded. */
  ghost predicate Served<K, R>(codec: Codec<R>, s: Sys<K, R>, c: nat, reply: Reply<R>)
    requires c < |s.callers|
  {
    reply == Refused || reply == Abandoned ||
    exists g :: 0 <= g < |s.gens| && s.gens[g].key == s.callers[c].key && s.gens[g].outcome.Some?
                && reply == Decode(codec, Payload(codec, s.gens[g].outcome.value))
  }

  ghost predicate Ok<K(!new), R>(codec: Codec<R>, cap: int, s: Sys<K, R>) {
    && StoreOk(codec, cap, s) && LiveKept(s) && GensOk(s)
    && (forall c :: 0 <= c < |s.callers| ==> s.callers[c].ttl > 0)
    && (forall c: nat :: c < |s.callers| ==> CallerOk(codec, s, c))
  }

  lemma {:induction false} FewerLive<K>(m: Claims<K>, now: int)
    ensures |Expire(m, now)| <= |m|
  {
    assert Expire(m, now).Keys <= m.Keys;
    Fewer(Expire(m, now).Keys, m.Keys);
  }

  /** Time passes and the store forgets what has expired, and nothing else. */
  function Advance<K(==), R>(s: Sys<K, R>, now: int): Sys<K, R> {
    var claims := Expire(s.claims, now);
    s.(claims := claims, owner := Restrict(s.owner, claims), clock := now)
  }

  lemma {:induction false} AdvanceStore<K(!new), R>(codec: Codec<R>, cap: int, s: Sys<K, R>, now: int)
    requires StoreOk(codec, cap, s)
    ensures StoreOk(codec, cap, Advance(s, now))
  {
    FewerLive(s.claims, now);
    var s' := Advance(s, now);
    assert s'.owner.Keys == s'.claims.Keys;
  }

  lemma {:induction false} AdvanceLive<K(!new), R>(codec: Codec<R>, cap: int, s: Sys<K, R>, now: int)
    requires StoreOk(codec, cap, s) && LiveKept(s) && s.clock <= now
    ensures LiveKept(Advance(s, now))
  {
    var s' := Advance(s, now);
    forall g | 0 <= g < |s'.gens| && now <= s'.gens[g].expiry
      ensures s'.gens[g].key in s'.claims && s'.gens[g].key in s'.owner && s'.owner[s'.gens[g].key] == g
    {
      assert s.clock <= s.gens[g].expiry;
      assert s.claims[s.gens[g].key].expiry == s.gens[g].expiry;
    }
  }

  lemma {:induction false} AdvanceKeeps<K(!new), R>(codec: Codec<R>, cap: int, s: Sys<K, R>, now: int)
    requires Ok(codec, cap, s) && s.clock <= now
    ensures Ok(codec, cap, Advance(s, now))
  {
    AdvanceStore(codec, cap, s, now);
    AdvanceLive(codec, cap, s, now);
    var s' := Advance(s, now);
    assert GensOk(s');
    forall c: nat | c < |s'.callers| ensures CallerOk(codec, s', c) { SameGens(codec, s, s', c); }
  }

  /** A caller's standing depends on the generations and on the callers, not on the store. */
  lemma {:induction false} SameGens<K, R>(codec: Codec<R>, s: Sys<K, R>, s': Sys<K, R>, c: nat)
    requires c < |s.callers| == |s'.callers| && s.gens == s'.gens && s.callers[c] == s'.callers[c]
    requires CallerOk(codec, s, c)
    ensures CallerOk(codec, s', c)
  {
  }

  predicate Unsettled<R>(p: Phase<R>) {
    p.Asking? || p.Waiting?
  }

  /** A caller that has not executed settles into a phase that needs no execution. */
  lemma {:induction false} SettleKeeps<K(!new), R>(codec: Codec<R>, cap: int, s: Sys<K, R>, c: nat, p: Phase<R>)
    requires Ok(codec, cap, s) && c < |s.callers| && Unsettled(s.callers[c].phase)
    requires Unsettled(p) || (p.Answered? && Served(codec, s, c, p.reply))
    ensures Ok(codec, cap, s.(callers := WithPhase(s, c, p)))
  {
    var s' := s.(callers := WithPhase(s, c, p));
    forall d: nat | d < |s'.callers| ensures CallerOk(codec, s', d) {
      assert CallerOk(codec, s, d);
      if d != c { SameGens(codec, s, s', d); }
    }
  }

  function Win<K(==), R>(s: Sys<K, R>, c: nat): Sys<K, R>
    requires c < |s.callers|
  {
    var me := s.callers[c];
    var expiry := s.clock + me.ttl;
    Sys(s.claims[me.key := Claim(expiry, false, [])], s.clock, WithPhase(s, c, Executing(|s.gens|)),
        s.gens + [Gen(me.key, c, s.clock, expiry, None)], s.owner[me.key := |s.gens|])
  }

  lemma {:induction false} WinStore<K(!new), R>(codec: Codec<R>, cap: int, s: Sys<K, R>, c: nat)
    requires StoreOk(codec, cap, s) && c < |s.callers| && s.callers[c].key !in s.claims && |s.claims| < cap
    ensures StoreOk(codec, cap, Win(s, c))
  {
    var s' := Win(s, c);
    assert s'.claims.Keys == s.claims.Keys + {s.callers[c].key};
    assert |s'.claims| == |s.claims| + 1;
  }

  lemma {:induction false} WinLive<K(!new), R>(s: Sys<K, R>, c: nat)
    requires LiveKept(s) && c < |s.callers| && s.callers[c].key !in s.claims
    ensures LiveKept(Win(s, c))
  {
    var s' := Win(s, c);
    forall g | 0 <= g < |s'.gens| && s'.clock <= s'.gens[g].expiry
      ensures s'.gens[g].key in s'.claims && s'.gens[g].key in s'.owner && s'.owner[s'.gens[g].key] == g
    {
      assert g < |s.gens| ==> s'.gens[g] == s.gens[g];
    }
  }

  /** A win on a key follows only wins of that key that have all expired. */
  lemma {:induction false} WinGens<K(!new), R>(codec: Codec<R>, s: Sys<K, R>, c: nat)
    requires GensOk(s) && LiveKept(s) && c < |s.callers| && s.callers[c].key !in s.claims
    requires Unsettled(s.callers[c].phase) && CallerOk(codec, s, c)
    ensures GensOk(Win(s, c))
  {
    var me, s' := s.callers[c], Win(s, c);
    forall i, j | 0 <= i < j < |s'.gens| && s'.gens[i].key == s'.gens[j].key
      ensures s'.gens[j].wonAt > s'.gens[i].expiry
    {
      assert s'.gens[i] == s.gens[i];
      if j < |s.gens| { assert s'.gens[j] == s.gens[j]; }
    }
  }

  lemma {:induction false} WinKeeps<K(!new), R>(codec: Codec<R>, cap: int, s: Sys<K, R>, c: nat)
    requires Ok(codec, cap, s) && c < |s.callers| && Unsettled(s.callers[c].phase)
    requires s.callers[c].key !in s.claims && |s.claims| < cap
    ensures Ok(codec, cap, Win(s, c))
  {
    assert CallerOk(codec, s, c);
    WinStore(codec, cap, s, c);
    WinLive(s, c);
    WinGens(codec, s, c);
    var s' := Win(s, c);
    forall d: nat | d < |s'.callers| ensures CallerOk(codec, s', d) { WinOthers(codec, s, c, d); }
  }

  lemma {:induction false} WinOthers<K(!new), R>(codec: Codec<R>, s: Sys<K, R>, c: nat, d: nat)
    requires c < |s.callers| && d < |s.callers| && CallerOk(codec, s, d)
    ensures CallerOk(codec, Win(s, c), d)
  {
    var s' := Win(s, c);
    if d != c {
      var me := s.callers[d];
      if me.phase.Answered? {
        var reply := me.phase.reply;
        if reply != Refused && reply != Abandoned {
          var g :| 0 <= g < |s.gens| && s.gens[g].key == me.key && s.gens[g].outcome.Some?
                   && reply == Decode(codec, Payload(codec, s.gens[g].outcome.value));
          assert s'.gens[g] == s.gens[g];
        }
      }
    }
  }

  lemma {:induction false} AskIsWin<K(!new), R>(codec: Codec<R>, cap: int, s: Sys<K, R>, c: nat, now: int)
    requires c < |s.callers| && AnswerTo(s.claims, cap, s.callers[c].key, now) == Won
    ensures AskNext(codec, cap, s, c, now) == Win(Advance(s, now), c)
    ensures s.callers[c].key !in Advance(s, now).claims && |Advance(s, now).claims| < cap
  {
    var me, mid := s.callers[c], Advance(s, now);
    assert Restrict(s.owner, mid.claims[me.key := Claim(now + me.ttl, false, [])])[me.key := |s.gens|] ==
           Restrict(s.owner, mid.claims)[me.key := |s.gens|];
  }

  lemma {:induction false} AskIsServed<K(!new), R>(codec: Codec<R>, cap: int, s: Sys<K, R>, c: nat, now: int)
    requires StoreOk(codec, cap, Advance(s, now)) && c < |s.callers|
             && AnswerTo(s.claims, cap, s.callers[c].key, now).Done?
    ensures Served(codec, Advance(s, now), c, Decode(codec, AnswerTo(s.claims, cap, s.callers[c].key, now).result))
  {
    var mid := Advance(s, now);
    var g := mid.owner[s.callers[c].key];
    assert mid.gens[g].key == s.callers[c].key && mid.gens[g].outcome.Some?;
  }

  function PhaseAfter<R>(codec: Codec<R>, answer: Answer): Phase<R>
    requires !answer.Won?
  {
    if answer.Pending? then Waiting
    else if answer.Full? then Answered(Refused)
    else Answered(Decode(codec, answer.result))
  }

  lemma {:induction false} AskIsSettle<K(!new), R>(codec: Codec<R>, cap: int, s: Sys<K, R>, c: nat, now: int)
    requires c < |s.callers| && !AnswerTo(s.claims, cap, s.callers[c].key, now).Won?
    ensures var mid := Advance(s, now);
            AskNext(codec, cap, s, c, now) ==
            mid.(callers := WithPhase(mid, c, PhaseAfter(codec, AnswerTo(s.claims, cap, s.callers[c].key, now))))
  {
  }

  lemma {:induction false} AskKeeps<K(!new), R>(codec: Codec<R>, cap: int, s: Sys<K, R>, c: nat, now: int)
    requires Ok(codec, cap, s) && c < |s.callers| && Unsettled(s.callers[c].phase) && s.clock <= now
    ensures Ok(codec, cap, AskNext(codec, cap, s, c, now))
  {
    AdvanceKeeps(codec, cap, s, now);
    if AnswerTo(s.claims, cap, s.callers[c].key, now).Won? {
      AskIsWin(codec, cap, s, c, now);
      WinKeeps(codec, cap, Advance(s, now), c);
    } else {
      AskSettles(codec, cap, s, c, now);
    }
  }

  lemma {:induction false} AskSettles<K(!new), R>(codec: Codec<R>, cap: int, s: Sys<K, R>, c: nat, now: int)
    requires Ok(codec, cap, Advance(s, now)) && c < |s.callers| && Unsettled(s.callers[c].phase)
    requires !AnswerTo(s.claims, cap, s.callers[c].key, now).Won?
    ensures Ok(codec, cap, AskNext(codec, cap, s, c, now))
  {
    var answer := AnswerTo(s.claims, cap, s.callers[c].key, now);
    AskIsSettle(codec, cap, s, c, now);
    if answer.Done? { AskIsServed(codec, cap, s, c, now); }
    SettleKeeps(codec, cap, Advance(s, now), c, PhaseAfter(codec, answer));
  }

  lemma {:induction false} FinishKeeps<K(!new), R>(codec: Codec<R>, cap: int, s: Sys<K, R>, c: nat, now: int,
                                                   o: Outcome<R>, lost: bool)
    requires Ok(codec, cap, s) && c < |s.callers| && s.callers[c].phase.Executing? && s.clock <= now
    ensures s.callers[c].phase.gen < |s.gens|
    ensures Ok(codec, cap, FinishNext(codec, s, c, now, o, lost))
  {
    assert CallerOk(codec, s, c);
    var s' := FinishNext(codec, s, c, now, o, lost);
    FinishStore(codec, cap, s, c, now, o, lost);
    FinishLive(codec, s, c, now, o, lost);
    FinishGens(codec, s, c, now, o, lost);
    forall d: nat | d < |s'.callers| ensures CallerOk(codec, s', d) { FinishOthers(codec, s, c, now, o, lost, d); }
  }

  lemma {:induction false} FinishLive<K(!new), R>(codec: Codec<R>, s: Sys<K, R>, c: nat, now: int, o: Outcome<R>,
                                                  lost: bool)
    requires c < |s.callers| && s.callers[c].phase.Executing? && s.callers[c].phase.gen < |s.gens|
    requires LiveKept(s) && s.clock <= now
    ensures LiveKept(FinishNext(codec, s, c, now, o, lost))
  {
    var s' := FinishNext(codec, s, c, now, o, lost);
    assert s'.claims.Keys == s.claims.Keys;
    forall g | 0 <= g < |s'.gens| && s'.clock <= s'.gens[g].expiry
      ensures s'.gens[g].key in s'.claims && s'.gens[g].key in s'.owner && s'.owner[s'.gens[g].key] == g
    {
      assert s.clock <= s.gens[g].expiry;
    }
  }

  lemma {:induction false} FinishGens<K(!new), R>(codec: Codec<R>, s: Sys<K, R>, c: nat, now: int, o: Outcome<R>,
                                                  lost: bool)
    requires c < |s.callers| && s.callers[c].phase.Executing? && s.callers[c].phase.gen < |s.gens|
    requires GensOk(s) && s.clock <= now
    ensures GensOk(FinishNext(codec, s, c, now, o, lost))
  {
  }

  lemma {:induction false} FinishStore<K(!new), R>(codec: Codec<R>, cap: int, s: Sys<K, R>, c: nat, now: int,
                                                   o: Outcome<R>, lost: bool)
    requires Ok(codec, cap, s) && c < |s.callers| && s.callers[c].phase.Executing? && s.clock <= now
    requires s.callers[c].phase.gen < |s.gens|
    ensures StoreOk(codec, cap, FinishNext(codec, s, c, now, o, lost))
  {
    assert CallerOk(codec, s, c);
    var me := s.callers[c];
    var g := me.phase.gen;
    var s' := FinishNext(codec, s, c, now, o, lost);
    assert s'.claims.Keys == s.claims.Keys;
    forall k | k in s'.claims
      ensures && s'.owner[k] < |s'.gens| && s'.gens[s'.owner[k]].key == k
              && s'.gens[s'.owner[k]].expiry == s'.claims[k].expiry
              && (s'.claims[k].done ==> s'.gens[s'.owner[k]].outcome.Some?
                                        && s'.claims[k].result == Payload(codec, s'.gens[s'.owner[k]].outcome.value))
    {
      if k == me.key && s'.claims[k] != s.claims[k] {
        assert s.clock <= s.gens[g].expiry;
        assert s.owner[k] == g;
      }
    }
  }

  lemma {:induction false} FinishOthers<K(!new), R>(codec: Codec<R>, s: Sys<K, R>, c: nat, now: int, o: Outcome<R>,
                                                    lost: bool, d: nat)
    requires c < |s.callers| && d < |s.callers| && CallerOk(codec, s, d) && CallerOk(codec, s, c)
    requires s.callers[c].phase.Executing?
    ensures s.callers[c].phase.gen < |s.gens|
    ensures CallerOk(codec, FinishNext(codec, s, c, now, o, lost), d)
  {
    var g := s.callers[c].phase.gen;
    var s' := FinishNext(codec, s, c, now, o, lost);
    if d == c {
      assert s'.gens[g].winner == c && s'.gens[g].outcome == Some(o);
    } else {
      var me := s.callers[d];
      if me.phase.Answered? {
        var reply := me.phase.reply;
        if reply != Refused && reply != Abandoned {
          var x :| 0 <= x < |s.gens| && s.gens[x].key == me.key && s.gens[x].outcome.Some?
                   && reply == Decode(codec, Payload(codec, s.gens[x].outcome.value));
          assert s'.gens[x] == s.gens[x];
        }
      }
    }
  }

  lemma {:induction false} NextKeeps<K(!new), R>(codec: Codec<R>, cap: int, s: Sys<K, R>, e: Event<R>)
    requires Ok(codec, cap, s) && InOrder(s, e)
    ensures Ok(codec, cap, Next(codec, cap, s, e))
  {
    if e.c < |s.callers| {
      var phase := s.callers[e.c].phase;
      match e
      case Ask(c, now, unavailable) =>
        if Unsettled(phase) {
          if unavailable {
            RefuseKeeps(codec, cap, s, c, now);
          } else {
            AskKeeps(codec, cap, s, c, now);
          }
        }
      case Finish(c, now, o, lost) =>
        if phase.Executing? { FinishKeeps(codec, cap, s, c, now, o, lost); }
      case Abandon(c) =>
        if phase.Waiting? { SettleKeeps(codec, cap, s, c, Answered(Abandoned)); }
    }
  }

  /** A later reading alone changes nothing. */
  lemma {:induction false} TickKeeps<K(!new), R>(codec: Codec<R>, cap: int, s: Sys<K, R>, now: int)
    requires Ok(codec, cap, s) && s.clock <= now
    ensures Ok(codec, cap, s.(clock := now))
  {
    var s' := s.(clock := now);
    assert LiveKept(s') && GensOk(s');
    forall d: nat | d < |s'.callers| ensures CallerOk(codec, s', d) { SameGens(codec, s, s', d); }
  }

  lemma {:induction false} RefuseKeeps<K(!new), R>(codec: Codec<R>, cap: int, s: Sys<K, R>, c: nat, now: int)
    requires Ok(codec, cap, s) && c < |s.callers| && Unsettled(s.callers[c].phase) && s.clock <= now
    ensures Ok(codec, cap, s.(clock := now, callers := WithPhase(s, c, Answered(Refused))))
  {
    SettleKeeps(codec, cap, s, c, Answered(Refused));
    TickKeeps(codec, cap, s.(callers := WithPhase(s, c, Answered(Refused))), now);
  }

  // ---------------------------------------------------------------- whole runs

  ghost predicate Reaches<K, R>(codec: Codec<R>, cap: int, s: Sys<K, R>, es: seq<Event<R>>, t: Sys<K, R>)
    decreases |es|
  {
    if es == [] then s == t
    else InOrder(s, es[0]) && Reaches(codec, cap, Next(codec, cap, s, es[0]), es[1..], t)
  }

  /** Nobody has asked yet. */
  ghost predicate Start<K, R>(s: Sys<K, R>) {
    && s.claims == map[] && s.gens == [] && s.owner == map[]
    && forall c :: 0 <= c < |s.callers| ==> s.callers[c].ttl > 0 && s.callers[c].phase == Asking
  }

  lemma {:induction false} RunKeeps<K(!new), R>(codec: Codec<R>, cap: int, s: Sys<K, R>, es: seq<Event<R>>,
                                                t: Sys<K, R>)
    requires Ok(codec, cap, s) && Reaches(codec, cap, s, es, t)
    ensures Ok(codec, cap, t)
    decreases |es|
  {
    if es != [] {
      NextKeeps(codec, cap, s, es[0]);
      RunKeeps(codec, cap, Next(codec, cap, s, es[0]), es[1..], t);
    }
  }

  /** At most once, for any number of callers and any interleaving with readings in order:
      wins on one key are more than a time to live apart, nobody executes twice, live claims stay
      in the store within its capacity, and everybody else is refused, gives up, or is answered
      from the outcome a winner of the same key recorded. */
  lemma {:induction false} AtMostOnce<K(!new), R>(codec: Codec<R>, cap: int, s: Sys<K, R>, es: seq<Event<R>>,
                                                  t: Sys<K, R>)
    requires cap >= 0 && Start(s) && Reaches(codec, cap, s, es, t)
    ensures forall i, j :: 0 <= i < j < |t.gens| && t.gens[i].key == t.gens[j].key ==>
            t.gens[j].wonAt > t.gens[i].expiry
    ensures forall i, j :: 0 <= i < j < |t.gens| ==> t.gens[i].winner != t.gens[j].winner
    ensures |t.claims| <= cap
    ensures forall g :: 0 <= g < |t.gens| && t.clock <= t.gens[g].expiry ==>
                        t.gens[g].key in t.claims && t.claims[t.gens[g].key].expiry == t.gens[g].expiry
    ensures forall c: nat :: c < |t.callers| ==> CallerOk(codec, t, c)
  {
    StartOk(codec, cap, s);
    RunKeeps(codec, cap, s, es, t);
  }

  lemma {:induction false} StartOk<K(!new), R>(codec: Codec<R>, cap: int, s: Sys<K, R>)
    requires Start(s)
    ensures Ok(codec, cap, s)
  {
    forall c: nat | c < |s.callers| ensures CallerOk(codec, s, c) { }
  }

  /** A winner that outlived its claim cannot touch a successor's: when the stored claim belongs to
      another generation, completing changes nothing in the store. */
  lemma {:induction false} StaleCompleteIsNoOp<K(!new), R>(codec: Codec<R>, cap: int, s: Sys<K, R>, c: nat, now: int,
                                                           o: Outcome<R>, lost: bool)
    requires Ok(codec, cap, s) && c < |s.callers| && s.callers[c].phase.Executing? && s.clock <= now
    requires s.callers[c].key in s.claims && s.owner[s.callers[c].key] != s.callers[c].phase.gen
    ensures s.callers[c].phase.gen < |s.gens|
    ensures FinishNext(codec, s, c, now, o, lost).claims == s.claims
  {
    assert CallerOk(codec, s, c);
    var g := s.callers[c].phase.gen;
    assert s.gens[g].expiry < s.clock;
  }

  // ---------------------------------------------------------------- outcomes are replayed

  /** The store holds a recorded outcome for the key. */
  predicate Recorded<K(==), R>(s: Sys<K, R>, key: K, expiry: int, payload: Bytes) {
    key in s.claims && s.claims[key] == Claim(expiry, true, payload)
  }

  /** A winner that finishes within its time to live leaves its outcome in the store. */
  lemma {:induction false} FinishRecords<K(!new), R>(codec: Codec<R>, cap: int, s: Sys<K, R>, c: nat, now: int,
                                                     o: Outcome<R>)
    requires Ok(codec, cap, s) && c < |s.callers| && s.callers[c].phase.Executing? && s.clock <= now
    ensures s.callers[c].phase.gen < |s.gens|
    ensures var g := s.gens[s.callers[c].phase.gen];
            now <= g.expiry ==>
              Recorded(Next(codec, cap, s, Finish(c, now, o, false)), s.callers[c].key, g.expiry, Payload(codec, o))
  {
    assert CallerOk(codec, s, c);
    var g := s.callers[c].phase.gen;
    if now <= s.gens[g].expiry {
      assert s.gens[g].key in s.claims && s.owner[s.gens[g].key] == g;
    }
  }

  /** Until it expires, nothing removes or replaces it. */
  lemma {:induction false} RecordedStays<K(!new), R>(codec: Codec<R>, cap: int, s: Sys<K, R>, e: Event<R>, key: K,
                                                     expiry: int, payload: Bytes)
    requires Recorded(s, key, expiry, payload) && InOrder(s, e) && Next(codec, cap, s, e).clock <= expiry
    ensures Recorded(Next(codec, cap, s, e), key, expiry, payload) && s.clock <= Next(codec, cap, s, e).clock
  {
  }

  lemma {:induction false} ClockRises<K(!new), R>(codec: Codec<R>, cap: int, s: Sys<K, R>, es: seq<Event<R>>,
                                                  t: Sys<K, R>)
    requires Reaches(codec, cap, s, es, t)
    ensures s.clock <= t.clock
    decreases |es|
  {
    if es != [] {
      ClockStep(codec, cap, s, es[0]);
      ClockRises(codec, cap, Next(codec, cap, s, es[0]), es[1..], t);
    }
  }

  lemma {:induction false} ClockStep<K(!new), R>(codec: Codec<R>, cap: int, s: Sys<K, R>, e: Event<R>)
    requires InOrder(s, e)
    ensures s.clock <= Next(codec, cap, s, e).clock
  {
  }

  lemma {:induction false} RecordedLasts<K(!new), R>(codec: Codec<R>, cap: int, s: Sys<K, R>, es: seq<Event<R>>,
                                                     t: Sys<K, R>, key: K, expiry: int, payload: Bytes)
    requires Reaches(codec, cap, s, es, t) && Recorded(s, key, expiry, payload) && t.clock <= expiry
    ensures Recorded(t, key, expiry, payload)
    decreases |es|
  {
    if es != [] {
      ClockRises(codec, cap, Next(codec, cap, s, es[0]), es[1..], t);
      RecordedStays(codec, cap, s, es[0], key, expiry, payload);
      RecordedLasts(codec, cap, Next(codec, cap, s, es[0]), es[1..], t, key, expiry, payload);
    }
  }

  lemma {:induction false} RecordedAnswers<K(!new), R>(codec: Codec<R>, cap: int, s: Sys<K, R>, d: nat, now: int,
                                                       expiry: int, payload: Bytes)
    requires d < |s.callers| && Unsettled(s.callers[d].phase) && now <= expiry
    requires Recorded(s, s.callers[d].key, expiry, payload)
    ensures Next(codec, cap, s, Ask(d, now, false)).callers[d].phase == Answered(Decode(codec, payload))
  {
  }

  /** Exactly-once for the duplicates: once a winner has finished within its time to live, every
      caller of its key that asks no later than its expiry, whatever happened in between, is
      answered at that ask from the outcome the winner recorded. */
  lemma {:induction false} DuplicatesReplayed<K(!new), R>(codec: Codec<R>, cap: int, s: Sys<K, R>,
                                                          before: seq<Event<R>>,
                                                          t: Sys<K, R>, c: nat, done: int, o: Outcome<R>,
                                                          between: seq<Event<R>>, u: Sys<K, R>, d: nat, now: int)
    requires Start(s) && Reaches(codec, cap, s, before, t)
    requires c < |t.callers| && t.callers[c].phase.Executing? && t.clock <= done
    requires Reaches(codec, cap, Next(codec, cap, t, Finish(c, done, o, false)), between, u)
    requires d < |u.callers| && Unsettled(u.callers[d].phase) && u.callers[d].key == t.callers[c].key && u.clock <= now
    ensures t.callers[c].phase.gen < |t.gens|
    ensures done <= t.gens[t.callers[c].phase.gen].expiry && now <= t.gens[t.callers[c].phase.gen].expiry ==>
              Next(codec, cap, u, Ask(d, now, false)).callers[d].phase == Answered(Decode(codec, Payload(codec, o)))
  {
    StartOk(codec, cap, s);
    RunKeeps(codec, cap, s, before, t);
    FinishRecords(codec, cap, t, c, done, o);
    var g, key := t.gens[t.callers[c].phase.gen], t.callers[c].key;
    if done <= g.expiry && now <= g.expiry {
      var t' := Next(codec, cap, t, Finish(c, done, o, false));
      RecordedLasts(codec, cap, t', between, u, key, g.expiry, Payload(codec, o));
      RecordedAnswers(codec, cap, u, d, now, g.expiry, Payload(codec, o));
    }
  }

  /** A caller that waits may give up, and is told so; one that cannot reach the store is refused. */
  lemma {:induction false} WaiterMayLeave<K(!new), R>(codec: Codec<R>, cap: int, s: Sys<K, R>, c: nat, now: int)
    requires c < |s.callers|
    ensures s.callers[c].phase == Waiting ==>
              Next(codec, cap, s, Abandon(c)).callers[c].phase == Answered(Abandoned)
    ensures Unsettled(s.callers[c].phase) ==>
              Next(codec, cap, s, Ask(c, now, true)).callers[c].phase == Answered(Refused)
  {
  }

  /** A caller whose key has no claim within its time to live, in a store with room, wins and executes. */
  lemma {:induction false} FreeKeyIsWon<K(!new), R>(codec: Codec<R>, cap: int, s: Sys<K, R>, c: nat, now: int)
    requires Ok(codec, cap, s) && c < |s.callers| && Unsettled(s.callers[c].phase) && s.clock <= now
    requires forall g :: 0 <= g < |s.gens| && s.gens[g].key == s.callers[c].key ==> s.gens[g].expiry < now
    requires |Expire(s.claims, now)| < cap
    ensures var t := Next(codec, cap, s, Ask(c, now, false));
            && t.callers[c].phase == Executing(|s.gens|) && |t.gens| == |s.gens| + 1
            && t.gens[|s.gens|] == Gen(s.callers[c].key, c, now, now + s.callers[c].ttl, None)
  {
    var key := s.callers[c].key;
    if key in s.claims { assert s.gens[s.owner[key]].expiry == s.claims[key].expiry; }
  }

  /** Read on (tool, key) pairs: two executions of one tool under one key, by whichever callers,
      started more than the first one's time to live apart. */
  lemma {:induction false} OncePerToolAndKey<R>(codec: Codec<R>, cap: int, s: Sys<string, R>, es: seq<Event<R>>,
                                                t: Sys<string, R>, i: nat, j: nat, tool: string, key: string,
                                                tool': string, key': string)
    requires cap >= 0 && Start(s) && Reaches(codec, cap, s, es, t)
    requires i < j < |t.gens| && t.gens[i].key == ClaimKey(tool, key) && t.gens[j].key == ClaimKey(tool', key')
    ensures (tool, key) == (tool', key') ==> t.gens[j].wonAt > t.gens[i].expiry
    ensures t.gens[i].key == t.gens[j].key ==> (tool, key) == (tool', key')
  {
    AtMostOnce(codec, cap, s, es, t);
    if t.gens[i].key == t.gens[j].key { ClaimKeyInjective(tool, key, tool', key'); }
  }
}
