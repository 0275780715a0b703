/** The sliding-log limiter on the client-management path, with its in-place compaction. */
module SlidingLog {

  datatype Call<K> = Call(key: K, at: int)

  type Logs<K> = map<K, seq<int>>

  /** The timestamps after `cutoff`, in order. */
  function Kept(log: seq<int>, cutoff: int): seq<int> {
    if log == [] then []
    else
      var n := |log| - 1;
      var front := Kept(log[..n], cutoff);
      if log[n] > cutoff then front + [log[n]] else front
  }

  function LogOf<K(==)>(m: Logs<K>, key: K): seq<int> {
    if key in m then m[key] else []
  }

  predicate Verdict<K(==)>(max: int, window: int, m: Logs<K>, c: Call<K>) {
    |Kept(LogOf(m, c.key), c.at - window)| < max
  }

  function Next<K(==)>(max: int, window: int, m: Logs<K>, c: Call<K>): Logs<K> {
    var kept := Kept(LogOf(m, c.key), c.at - window);
    m[c.key := if |kept| < max then kept + [c.at] else kept]
  }

  // ---------------------------------------------------------------- the limiter, on shared buffers

  /** A slice: the first `len` cells of a buffer that may have room to spare. */
  datatype Slice = Slice(buf: array<int>, len: nat)

  /** Rewrites the front of the buffer with the timestamps it keeps, in the same pass that reads them. */
  method Compact(buf: array<int>, len: nat, cutoff: int) returns (k: nat)
    requires len <= buf.Length
    modifies buf
    ensures k <= len && buf[..k] == Kept(old(buf[..len]), cutoff)
  {
    k := 0;
    ghost var log := buf[..len];
    for i := 0 to len
      invariant k <= i && buf[i..len] == log[i..]
      invariant buf[..k] == Kept(log[..i], cutoff)
    {
      var t := buf[i];
      assert t == buf[i..len][0] == log[i];
      assert log[..i + 1][..i] == log[..i];
      assert buf[i..len][1..] == log[i + 1..];
      if t > cutoff {
        buf[k] := t;
        k := k + 1;
        assert buf[..k - 1] == Kept(log[..i], cutoff);
      }
    }
    assert log[..len] == log;
  }

  /** Compacts a key's slice and, if there is room under `max`, appends the present time. */
  method Admit(s: Slice, max: int, now: int, cutoff: int) returns (r: Slice, ok: bool)
    requires s.len <= s.buf.Length
    modifies s.buf
    ensures r.len <= r.buf.Length && (r.buf == s.buf || fresh(r.buf))
    ensures var kept := Kept(old(s.buf[..s.len]), cutoff);
            ok == (|kept| < max) && r.buf[..r.len] == if ok then kept + [now] else kept
  {
    var k := Compact(s.buf, s.len, cutoff);
    r, ok := Slice(s.buf, k), k < max;
    if ok { r := Append(r, now); }
  }

  class Limiter<K(==)> {
    const max: int
    const window: int
    var hits: map<K, Slice>
    ghost var logs: Logs<K>

    ghost var buffers: set<array<int>>

    /** Slices fit their buffers, hold the abstract logs, and no two keys share a buffer. */
    ghost predicate Valid()
      reads this, buffers
    {
      && logs.Keys == hits.Keys
      && (forall k :: k in hits ==> hits[k].buf in buffers && hits[k].len <= hits[k].buf.Length)
      && (forall k :: k in hits ==> logs[k] == hits[k].buf[..hits[k].len])
      && forall j, k :: j in hits && k in hits && j != k ==> hits[j].buf != hits[k].buf
    }

    constructor (max: int, window: int)
      ensures Valid() && logs == map[] && this.max == max && this.window == window
    {
      this.max, this.window, hits, logs, buffers := max, window, map[], map[], {};
    }

    /** Stores a key's slice, whose buffer no other key uses. */
    method Put(key: K, slice: Slice)
      requires slice.len <= slice.buf.Length && logs.Keys == hits.Keys
      requires forall k :: k in hits && k != key ==>
                 && hits[k].buf in buffers && hits[k].len <= hits[k].buf.Length
                 && logs[k] == hits[k].buf[..hits[k].len] && hits[k].buf != slice.buf
      requires forall j, k :: j in hits && k in hits && j != k ==> hits[j].buf != hits[k].buf
      modifies this
      ensures Valid() && buffers == old(buffers) + {slice.buf}
      ensures logs == old(logs)[key := slice.buf[..slice.len]]
    {
      buffers := buffers + {slice.buf};
      hits := hits[key := slice];
      logs := logs[key := slice.buf[..slice.len]];
    }

    method Allow(key: K, now: int) returns (ok: bool)
      requires Valid()
      modifies this, buffers
      ensures Valid() && fresh(buffers - old(buffers))
      ensures ok == Verdict(max, window, old(logs), Call(key, now))
      ensures logs == Next(max, window, old(logs), Call(key, now))
    {
      var none := new int[0];
      var slice := if key in hits then hits[key] else Slice(none, 0);
      assert slice.buf[..slice.len] == LogOf(logs, key);
      slice, ok := Admit(slice, max, now, now - window);
      ghost var mine := slice.buf[..slice.len];
      assert logs[key := mine] == Next(max, window, logs, Call(key, now));
      Put(key, slice);
    }
  }

  /** Go's append: in place while there is room, otherwise into a fresh, larger buffer. */
  method Append(s: Slice, t: int) returns (r: Slice)
    requires s.len <= s.buf.Length
    modifies s.buf
    ensures r.len == s.len + 1 <= r.buf.Length
    ensures if s.len < s.buf.Length then r.buf == s.buf else fresh(r.buf)
    ensures r.buf[..r.len] == old(s.buf[..s.len]) + [t]
  {
    r := Slice(s.buf, s.len + 1);
    if s.len == s.buf.Length {
      var bigger := new int[2 * s.len + 1];
      forall i | 0 <= i < s.len { bigger[i] := s.buf[i]; }
      r := Slice(bigger, s.len + 1);
    }
    r.buf[s.len] := t;
  }

  // ---------------------------------------------------------------- whole runs

  function After<K(==)>(max: int, window: int, calls: seq<Call<K>>): Logs<K> {
    if calls == [] then map[]
    else Next(max, window, After(max, window, calls[..|calls| - 1]), calls[|calls| - 1])
  }

  /** Every time at which a call for `key` was let through, none ever forgotten. */
  function Granted<K(==)>(max: int, window: int, calls: seq<Call<K>>, key: K): seq<int> {
    if calls == [] then []
    else
      var before, c := calls[..|calls| - 1], calls[|calls| - 1];
      var times := Granted(max, window, before, key);
      if c.key == key && Verdict(max, window, After(max, window, before), c) then times + [c.at] else times
  }

  ghost predicate Ordered<K>(calls: seq<Call<K>>) {
    forall i, j :: 0 <= i < j < |calls| ==> calls[i].at <= calls[j].at
  }

  lemma {:induction false} KeptTwice(log: seq<int>, c: int, d: int)
    requires c <= d
    ensures Kept(Kept(log, c), d) == Kept(log, d)
  {
    if log != [] {
      var n := |log| - 1;
      KeptTwice(log[..n], c, d);
      if log[n] > c { KeptSnoc(Kept(log[..n], c), log[n], d); }
    }
  }

  lemma {:induction false} KeptSnoc(log: seq<int>, t: int, cutoff: int)
    ensures Kept(log + [t], cutoff) == if t > cutoff then Kept(log, cutoff) + [t] else Kept(log, cutoff)
  {
    assert (log + [t])[..|log|] == log;
  }

  lemma {:induction false} KeptFewer(log: seq<int>, c: int, d: int)
    requires c <= d
    ensures |Kept(log, d)| <= |Kept(log, c)|
  {
    if log != [] { KeptFewer(log[..|log| - 1], c, d); }
  }

  /** One call keeps the stored log and the full history alike, as far as any later call can see. */
  lemma {:induction false} LostStep(log: seq<int>, all: seq<int>, max: int, window: int, at: int, now: int)
    requires at <= now && Kept(log, at - window) == Kept(all, at - window)
    ensures var kept := Kept(log, at - window);
            Kept(if |kept| < max then kept + [at] else kept, now - window) ==
            Kept(if |kept| < max then all + [at] else all, now - window)
  {
    KeptTwice(log, at - window, now - window);
    KeptTwice(all, at - window, now - window);
    KeptSnoc(Kept(log, at - window), at, now - window);
    KeptSnoc(all, at, now - window);
  }

  /** The stored log is the full history cut at the last call's cutoff: compaction dropped nothing
      that this or any later call can still see. */
  lemma {:induction false} NothingNeededIsLost<K>(max: int, window: int, calls: seq<Call<K>>, key: K, now: int)
    requires window > 0 && Ordered(calls)
    requires calls != [] ==> calls[|calls| - 1].at <= now
    ensures Kept(LogOf(After(max, window, calls), key), now - window) ==
            Kept(Granted(max, window, calls, key), now - window)
    decreases |calls|
  {
    if calls != [] {
      var n := |calls| - 1;
      var c := calls[n];
      assert n > 0 ==> calls[n - 1].at <= c.at;
      NothingNeededIsLost(max, window, calls[..n], key, now);
      if c.key == key {
        NothingNeededIsLost(max, window, calls[..n], key, c.at);
        LostStep(LogOf(After(max, window, calls[..n]), key), Granted(max, window, calls[..n], key), max, window, c.at,
            now);
      }
    }
  }

  /** The decision is exact: a call is let through if and only if fewer than `max` calls were let
      through in the window that ends now. */
  lemma {:induction false} DecisionExact<K>(max: int, window: int, calls: seq<Call<K>>, c: Call<K>)
    requires window > 0 && Ordered(calls) && (calls != [] ==> calls[|calls| - 1].at <= c.at)
    ensures Verdict(max, window, After(max, window, calls), c) <==>
            |Kept(Granted(max, window, calls, c.key), c.at - window)| < max
  {
    NothingNeededIsLost(max, window, calls, c.key, c.at);
  }

  /** How many of the granted times lie in `(t - window, t]`. */
  function InWindow(granted: seq<int>, window: int, t: int): nat {
    if granted == [] then 0
    else
      var n := |granted| - 1;
      InWindow(granted[..n], window, t) + if t - window < granted[n] <= t then 1 else 0
  }
}
