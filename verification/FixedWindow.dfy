/** The per-key fixed-window limiter for pre-authentication checks. Times are ticks of any length. */
module FixedWindow {

  datatype Window = Window(start: int, count: int)
  type Seen<K> = map<K, Window>

  datatype Call<K> = Call(key: K, at: int)

  predicate Opens<K(==)>(window: int, m: Seen<K>, c: Call<K>) {
    c.key !in m || c.at - m[c.key].start >= window
  }

  predicate Verdict<K(==)>(max: int, window: int, m: Seen<K>, c: Call<K>) {
    max <= 0 || Opens(window, m, c) || m[c.key].count < max
  }

  function Next<K(==)>(max: int, window: int, m: Seen<K>, c: Call<K>): Seen<K> {
    if max <= 0 then m
    else if Opens(window, m, c) then m[c.key := Window(c.at, 1)]
    else if m[c.key].count >= max then m
    else m[c.key := Window(m[c.key].start, m[c.key].count + 1)]
  }

  class Limiter<K(==)> {
    const max: int
    const window: int
    var seen: Seen<K>

    constructor (max: int, window: int)
      ensures this.max == max && this.window == window && seen == map[]
    {
      this.max, this.window, seen := max, window, map[];
    }

    method Allow(key: K, t: int) returns (ok: bool)
      modifies this
      ensures ok == Verdict(max, window, old(seen), Call(key, t))
      ensures seen == Next(max, window, old(seen), Call(key, t))
    {
      if max <= 0 { return true; }
      if key !in seen || t - seen[key].start >= window {
        seen := seen[key := Window(t, 1)];
        return true;
      }
      if seen[key].count >= max { return false; }
      seen := seen[key := seen[key].(count := seen[key].count + 1)];
      ok := true;
    }
  }

  /** A limiter without a positive cap limits nothing. */
  lemma {:induction false} NoCapAllowsAll<K>(max: int, window: int, m: Seen<K>, c: Call<K>)
    requires max <= 0
    ensures Verdict(max, window, m, c) && Next(max, window, m, c) == m
  {
  }

  // ---------------------------------------------------------------- whole runs

  function After<K(==)>(max: int, window: int, calls: seq<Call<K>>): Seen<K> {
    if calls == [] then map[]
    else Next(max, window, After(max, window, calls[..|calls| - 1]), calls[|calls| - 1])
  }

  /** How many calls for `key` at times in `[a, a + window)` the run let through. */
  function GrantedIn<K(==)>(max: int, window: int, calls: seq<Call<K>>, key: K, a: int): nat {
    if calls == [] then 0
    else
      var before, c := calls[..|calls| - 1], calls[|calls| - 1];
      GrantedIn(max, window, before, key, a)
      + if c.key == key && a <= c.at < a + window && Verdict(max, window, After(max, window, before), c) then 1 else 0
  }

  ghost predicate Ordered<K>(calls: seq<Call<K>>) {
    forall i, j :: 0 <= i < j < |calls| ==> calls[i].at <= calls[j].at
  }

  /** Grants inside the interval, by where the current window started: a window that started
      before the interval spent at least its first grant outside it. */
  ghost predicate Counted(max: int, window: int, w: Window, g: nat, a: int, now: int) {
    && 1 <= w.count <= max && w.start <= now
    && (now < a ==> g == 0)
    && (w.start < a ==> g <= w.count - 1)
    && (a <= w.start < a + window ==> g <= max - 1 + w.count)
    && g <= 2 * max - 1
  }

  lemma {:induction false} RunCounted<K>(max: int, window: int, calls: seq<Call<K>>, key: K, a: int)
    requires max > 0 && Ordered(calls)
    ensures var m := After(max, window, calls);
            var g := GrantedIn(max, window, calls, key, a);
            if key !in m then g == 0
            else calls != [] && Counted(max, window, m[key], g, a, calls[|calls| - 1].at)
  {
    if calls != [] {
      var n := |calls| - 1;
      RunCounted(max, window, calls[..n], key, a);
      if n > 0 { assert calls[n - 1].at <= calls[n].at; }
    }
  }

  /** With a clock that does not run backwards, no interval of one window length lets through
      more than `2 * max - 1` calls for a key. */
  lemma {:induction false} WindowBound<K>(max: int, window: int, calls: seq<Call<K>>, key: K, a: int)
    requires max > 0 && Ordered(calls)
    ensures GrantedIn(max, window, calls, key, a) <= 2 * max - 1
  {
    RunCounted(max, window, calls, key, a);
  }

  // ---------------------------------------------------------------- the bound is attained

  function Repeat<K>(c: Call<K>, n: nat): seq<Call<K>> {
    if n == 0 then [] else Repeat(c, n - 1) + [c]
  }

  lemma {:induction false} RepeatIs<K>(c: Call<K>, n: nat)
    ensures |Repeat(c, n)| == n && forall i :: 0 <= i < n ==> Repeat(c, n)[i] == c
  {
    if n > 0 { RepeatIs(c, n - 1); }
  }

  lemma {:induction false} Snoc<K>(max: int, window: int, before: seq<Call<K>>, c: Call<K>, a: int)
    ensures After(max, window, before + [c]) == Next(max, window, After(max, window, before), c)
    ensures GrantedIn(max, window, before + [c], c.key, a) ==
            GrantedIn(max, window, before, c.key, a)
            + if a <= c.at < a + window && Verdict(max, window, After(max, window, before), c) then 1 else 0
  {
    assert (before + [c])[..|before|] == before;
  }

  /** The key's window is `w`, and `g` of its calls were let through in the interval. */
  ghost predicate Stands<K>(max: int, window: int, calls: seq<Call<K>>, key: K, a: int, w: Window, g: int) {
    && key in After(max, window, calls) && After(max, window, calls)[key] == w
    && GrantedIn(max, window, calls, key, a) == g
  }

  /** Calls inside an open window that still has room are all let through. */
  lemma {:induction false} FillWindow<K>(max: int, window: int, before: seq<Call<K>>, c: Call<K>, n: nat, a: int,
                                         w: Window, g: int)
    requires max > 0 && Stands(max, window, before, c.key, a, w, g)
    requires c.at - w.start < window && w.count + n <= max && a <= c.at < a + window
    ensures Stands(max, window, before + Repeat(c, n), c.key, a, Window(w.start, w.count + n), g + n)
    decreases n
  {
    if n == 0 {
      assert before + Repeat(c, n) == before;
    } else {
      FillWindow(max, window, before, c, n - 1, a, w, g);
      assert before + Repeat(c, n) == before + Repeat(c, n - 1) + [c];
      Snoc(max, window, before + Repeat(c, n - 1), c, a);
    }
  }

  ghost predicate OrderedUpTo<K>(calls: seq<Call<K>>, t: int) {
    Ordered(calls) && forall i :: 0 <= i < |calls| ==> calls[i].at <= t
  }

  lemma {:induction false} OrderedRepeat<K>(calls: seq<Call<K>>, t: int, c: Call<K>, n: nat)
    requires OrderedUpTo(calls, t) && t <= c.at
    ensures OrderedUpTo(calls + Repeat(c, n), c.at)
  {
    RepeatIs(c, n);
  }

  lemma {:induction false} AttainingRunOrdered<K>(max: int, window: int, key: K)
    requires max > 0 && window > 1
    ensures Ordered([Call(key, 0)] + Repeat(Call(key, window - 1), max - 1)
                    + [Call(key, window)] + Repeat(Call(key, window), max - 1))
  {
    var late, full := Call(key, window - 1), Call(key, window);
    OrderedRepeat([Call(key, 0)], 0, late, max - 1);
    var first := [Call(key, 0)] + Repeat(late, max - 1);
    assert OrderedUpTo(first + [full], window);
    OrderedRepeat(first + [full], window, full, max - 1);
  }

  /** One early call, the rest of that window's budget at its very end, then a whole new window. */
  lemma {:induction false} BoundAttained<K>(max: int, window: int, key: K)
    requires max > 0 && window > 1
    ensures var calls := [Call(key, 0)] + Repeat(Call(key, window - 1), max - 1)
                         + [Call(key, window)] + Repeat(Call(key, window), max - 1);
            Ordered(calls) && GrantedIn(max, window, calls, key, window - 1) == 2 * max - 1
  {
    FirstHalf(max, window, key);
    SecondHalf(max, window, [Call(key, 0)] + Repeat(Call(key, window - 1), max - 1), key);
    AttainingRunOrdered(max, window, key);
  }

  lemma {:induction false} FirstHalf<K>(max: int, window: int, key: K)
    requires max > 0 && window > 1
    ensures Stands(max, window, [Call(key, 0)] + Repeat(Call(key, window - 1), max - 1), key, window - 1,
            Window(0, max), max - 1)
  {
    var a := window - 1;
    var early, late := Call(key, 0), Call(key, window - 1);
    assert [] + [early] == [early];
    Snoc(max, window, [], early, a);
    FillWindow(max, window, [early], late, max - 1, a, Window(0, 1), 0);
  }

  lemma {:induction false} SecondHalf<K>(max: int, window: int, first: seq<Call<K>>, key: K)
    requires max > 0 && window > 1 && Stands(max, window, first, key, window - 1, Window(0, max), max - 1)
    ensures Stands(max, window, first + [Call(key, window)] + Repeat(Call(key, window), max - 1), key, window - 1,
                   Window(window, max), 2 * max - 1)
  {
    var full := Call(key, window);
    Snoc(max, window, first, full, window - 1);
    FillWindow(max, window, first + [full], full, max - 1, window - 1, Window(window, 1), max);
  }
}
