/** The per-client token bucket. Tokens and seconds are real numbers: rounding is not the point. */
module TokenBucket {

  datatype Bucket = Bucket(tokens: real, last: real)
  type Buckets<K> = map<K, Bucket>

  datatype Call<K> = Call(key: K, at: real)

  function Min(x: real, y: real): real {
    if x < y then x else y
  }

  function Refill(rate: real, burst: real, b: Bucket, t: real): real {
    Min(b.tokens + (t - b.last) * rate, burst)
  }

  /** Whether a call is let through in a given state. */
  predicate Verdict<K(==)>(rate: real, burst: real, m: Buckets<K>, c: Call<K>) {
    rate <= 0.0 || c.key !in m || Refill(rate, burst, m[c.key], c.at) >= 1.0
  }

  function Next<K(==)>(rate: real, burst: real, m: Buckets<K>, c: Call<K>): Buckets<K> {
    if rate <= 0.0 then m
    else if c.key !in m then m[c.key := Bucket(burst - 1.0, c.at)]
    else
      var tokens := Refill(rate, burst, m[c.key], c.at);
      m[c.key := Bucket(if tokens < 1.0 then tokens else tokens - 1.0, c.at)]
  }

  class Limiter<K(==)> {
    const rate: real
    const burst: real
    var buckets: Buckets<K>

    constructor (rate: real, burst: real)
      ensures this.rate == rate && this.burst == burst && buckets == map[]
    {
      this.rate, this.burst, buckets := rate, burst, map[];
    }

    method Allow(key: K, t: real) returns (ok: bool)
      modifies this
      ensures ok == Verdict(rate, burst, old(buckets), Call(key, t))
      ensures buckets == Next(rate, burst, old(buckets), Call(key, t))
    {
      if rate <= 0.0 { return true; }
      if key !in buckets {
        buckets := buckets[key := Bucket(burst - 1.0, t)];
        return true;
      }
      var st := buckets[key];
      var tokens := st.tokens + (t - st.last) * rate;
      if tokens > burst { tokens := burst; }
      assert tokens == Refill(rate, burst, st, t);
      ok := tokens >= 1.0;
      if ok { tokens := tokens - 1.0; }
      buckets := buckets[key := Bucket(tokens, t)];
    }
  }

  /** A limiter without a positive rate limits nothing. */
  lemma {:induction false} NoRateAllowsAll<K>(rate: real, burst: real, m: Buckets<K>, c: Call<K>)
    requires rate <= 0.0
    ensures Verdict(rate, burst, m, c) && Next(rate, burst, m, c) == m
  {
  }

  // ---------------------------------------------------------------- whole runs

  function After<K(==)>(rate: real, burst: real, calls: seq<Call<K>>): Buckets<K> {
    if calls == [] then map[]
    else Next(rate, burst, After(rate, burst, calls[..|calls| - 1]), calls[|calls| - 1])
  }

  /** How many calls for `key` at times in `[s, t]` the run let through. */
  function GrantedIn<K(==)>(rate: real, burst: real, calls: seq<Call<K>>, key: K, s: real, t: real): nat {
    if calls == [] then 0
    else
      var before, c := calls[..|calls| - 1], calls[|calls| - 1];
      GrantedIn(rate, burst, before, key, s, t)
      + if c.key == key && s <= c.at <= t && Verdict(rate, burst, After(rate, burst, before), c) then 1 else 0
  }

  ghost predicate Ordered<K>(calls: seq<Call<K>>) {
    forall i, j :: 0 <= i < j < |calls| ==> calls[i].at <= calls[j].at
  }

  lemma {:induction false} RefillAdds(rate: real, a: real, b: real, c: real)
    requires rate > 0.0
    ensures (a - b) * rate + (b - c) * rate == (a - c) * rate
    ensures a >= b ==> (a - b) * rate >= 0.0
  {
  }

  /** The accounting behind the bound: every grant in `[s, t]` was paid for by the initial burst
      or by refill since `s`. */
  ghost predicate Paid(rate: real, burst: real, b: Bucket, g: nat, s: real, t: real) {
    && 0.0 <= b.tokens <= burst
    && (b.last < s ==> g == 0)
    && (s <= b.last <= t ==> g as real + b.tokens <= burst + (b.last - s) * rate)
    && g as real <= burst + (t - s) * rate
  }

  lemma {:induction false} PaidFirst(rate: real, burst: real, at: real, s: real, t: real)
    requires rate > 0.0 && burst >= 1.0 && s <= t
    ensures Paid(rate, burst, Bucket(burst - 1.0, at), if s <= at <= t then 1 else 0, s, t)
  {
    RefillAdds(rate, t, s, s);
    RefillAdds(rate, at, s, s);
  }

  lemma {:induction false} PaidNext(rate: real, burst: real, b: Bucket, g: nat, at: real, s: real, t: real)
    requires rate > 0.0 && burst >= 1.0 && s <= t && b.last <= at && Paid(rate, burst, b, g, s, t)
    ensures var tokens := Refill(rate, burst, b, at);
            var ok := tokens >= 1.0;
            Paid(rate, burst, Bucket(if ok then tokens - 1.0 else tokens, at),
                 g + if ok && s <= at <= t then 1 else 0, s, t)
  {
    RefillAdds(rate, at, b.last, s);
    RefillAdds(rate, t, at, s);
    RefillAdds(rate, at, s, s);
  }

  lemma {:induction false} RunPaid<K>(rate: real, burst: real, calls: seq<Call<K>>, key: K, s: real, t: real)
    requires rate > 0.0 && burst >= 1.0 && Ordered(calls) && s <= t
    ensures var m := After(rate, burst, calls);
            var g := GrantedIn(rate, burst, calls, key, s, t);
            if key !in m then g == 0
            else Paid(rate, burst, m[key], g, s, t) && calls != [] && m[key].last <= calls[|calls| - 1].at
  {
    if calls != [] {
      var n := |calls| - 1;
      var c := calls[n];
      RunPaid(rate, burst, calls[..n], key, s, t);
      var m := After(rate, burst, calls[..n]);
      if c.key == key {
        if key in m {
          assert calls[n - 1].at <= c.at;
          PaidNext(rate, burst, m[key], GrantedIn(rate, burst, calls[..n], key, s, t), c.at, s, t);
        } else {
          PaidFirst(rate, burst, c.at, s, t);
        }
      }
    }
  }

  /** A bucket below one token grants its first call and no other. */
  lemma {:induction false} OnlyFirst<K>(rate: real, burst: real, calls: seq<Call<K>>, key: K, s: real, t: real)
    requires rate > 0.0 && burst < 1.0
    ensures var m := After(rate, burst, calls);
            if key !in m then GrantedIn(rate, burst, calls, key, s, t) == 0
            else m[key].tokens <= burst && GrantedIn(rate, burst, calls, key, s, t) <= 1
  {
    if calls != [] { OnlyFirst(rate, burst, calls[..|calls| - 1], key, s, t); }
  }

  /** In every run with a clock that does not run backwards, any interval `[s, t]` sees at most
      the burst (never less than one call) plus the refill of that interval. */
  lemma {:induction false} BucketBound<K>(rate: real, burst: real, calls: seq<Call<K>>, key: K, s: real, t: real)
    requires rate > 0.0 && Ordered(calls) && s <= t
    ensures GrantedIn(rate, burst, calls, key, s, t) as real <= (if burst < 1.0 then 1.0 else burst) + (t - s) * rate
  {
    RefillAdds(rate, t, s, s);
    if burst < 1.0 {
      OnlyFirst(rate, burst, calls, key, s, t);
    } else {
      RunPaid(rate, burst, calls, key, s, t);
    }
  }

  /** The bucket does refill: in any run, a key left alone for the time one token takes is served. */
  lemma {:induction false} IdleKeyIsServed<K>(rate: real, burst: real, calls: seq<Call<K>>, c: Call<K>)
    requires rate > 0.0 && burst >= 1.0 && Ordered(calls)
    requires c.key in After(rate, burst, calls) ==> (c.at - After(rate, burst, calls)[c.key].last) * rate >= 1.0
    ensures Verdict(rate, burst, After(rate, burst, calls), c)
  {
    NeverInDebt(rate, burst, calls, c.key);
  }

  /** A burst of `n` calls for a key at one instant. */
  function Burst<K>(key: K, t: real, n: nat): seq<Call<K>> {
    seq(n, i requires 0 <= i < n => Call(key, t))
  }

  /** The tokens a key has for a call at `t`. */
  function Available<K(==)>(rate: real, burst: real, m: Buckets<K>, key: K, t: real): real {
    if key in m then Refill(rate, burst, m[key], t) else burst
  }

  lemma {:induction false} BurstSnoc<K>(rate: real, burst: real, calls: seq<Call<K>>, key: K, t: real, n: nat)
    requires n > 0
    ensures After(rate, burst, calls + Burst(key, t, n)) ==
            Next(rate, burst, After(rate, burst, calls + Burst(key, t, n - 1)), Call(key, t))
  {
    var all := calls + Burst(key, t, n);
    assert all[..|all| - 1] == calls + Burst(key, t, n - 1);
  }

  /** A call that is served takes one token. */
  lemma {:induction false} SpendOne<K>(rate: real, burst: real, m: Buckets<K>, key: K, t: real)
    requires rate > 0.0 && Available(rate, burst, m, key, t) >= 1.0
    ensures Verdict(rate, burst, m, Call(key, t))
    ensures Available(rate, burst, Next(rate, burst, m, Call(key, t)), key, t) ==
            Available(rate, burst, m, key, t) - 1.0
  {
    assert (t - t) * rate == 0.0;
  }

  lemma {:induction false} BurstLeaves<K>(rate: real, burst: real, calls: seq<Call<K>>, key: K, t: real, n: nat)
    requires rate > 0.0 && Available(rate, burst, After(rate, burst, calls), key, t) >= n as real
    ensures Available(rate, burst, After(rate, burst, calls + Burst(key, t, n)), key, t)
            == Available(rate, burst, After(rate, burst, calls), key, t) - n as real
    decreases n
  {
    if n == 0 {
      assert calls + Burst(key, t, 0) == calls;
    } else {
      BurstLeaves(rate, burst, calls, key, t, n - 1);
      BurstSnoc(rate, burst, calls, key, t, n);
      SpendOne(rate, burst, After(rate, burst, calls + Burst(key, t, n - 1)), key, t);
    }
  }

  /** The burst is there to be used: whatever happened before, a key with `n` tokens available, which is
      the whole burst for a new key, is served `n` calls at one instant. */
  lemma {:induction false} BurstIsServed<K>(rate: real, burst: real, calls: seq<Call<K>>, key: K, t: real, n: nat,
                                            i: nat)
    requires rate > 0.0 && i < n && Available(rate, burst, After(rate, burst, calls), key, t) >= n as real
    ensures Verdict(rate, burst, After(rate, burst, calls + Burst(key, t, i)), Call(key, t))
  {
    BurstLeaves(rate, burst, calls, key, t, i);
    SpendOne(rate, burst, After(rate, burst, calls + Burst(key, t, i)), key, t);
  }

  /** A key left alone long enough for `n` tokens has `n` available, up to the burst. */
  lemma {:induction false} IdleRefills<K>(rate: real, burst: real, calls: seq<Call<K>>, key: K, t: real, n: nat)
    requires rate > 0.0 && burst >= 1.0 && burst >= n as real && Ordered(calls)
    requires key in After(rate, burst, calls) ==> (t - After(rate, burst, calls)[key].last) * rate >= n as real
    ensures Available(rate, burst, After(rate, burst, calls), key, t) >= n as real
  {
    NeverInDebt(rate, burst, calls, key);
  }

  lemma {:induction false} NeverInDebt<K>(rate: real, burst: real, calls: seq<Call<K>>, key: K)
    requires rate > 0.0 && burst >= 1.0 && Ordered(calls)
    ensures key in After(rate, burst, calls) ==> After(rate, burst, calls)[key].tokens >= 0.0
  {
    RunPaid(rate, burst, calls, key, 0.0, 0.0);
  }

  lemma {:induction false} FirstIsServed(rate: real, burst: real, key: string)
    ensures GrantedIn(rate, burst, [Call(key, 0.0)], key, 0.0, 0.0) == 1 && (0.0 - 0.0) * rate == 0.0
  {
    var calls := [Call(key, 0.0)];
    assert calls[..0] == [];
    assert GrantedIn(rate, burst, calls[..0], key, 0.0, 0.0) == 0 && After(rate, burst, calls[..0]) == map[];
  }

  /** The bound `burst + rate * (t - s)` itself holds for all runs exactly when the burst is at least one. */
  lemma {:induction false} BurstBoundIff(rate: real, burst: real)
    requires rate > 0.0
    ensures (forall calls: seq<Call<string>>, key, s, t :: Ordered(calls) && s <= t ==>
               GrantedIn(rate, burst, calls, key, s, t) as real <= burst + (t - s) * rate) <==> burst >= 1.0
  {
    if burst >= 1.0 {
      forall calls: seq<Call<string>>, key, s, t | Ordered(calls) && s <= t
        ensures GrantedIn(rate, burst, calls, key, s, t) as real <= burst + (t - s) * rate
      {
        BucketBound(rate, burst, calls, key, s, t);
      }
    } else {
      var calls := [Call("k", 0.0)];
      FirstIsServed(rate, burst, "k");
      assert Ordered(calls) && GrantedIn(rate, burst, calls, "k", 0.0, 0.0) as real > burst + (0.0 - 0.0) * rate;
    }
  }
}
