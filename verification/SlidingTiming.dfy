/** Clock readings that reach the sliding-log limiter out of order: exactly which of them let more calls
    through in a window than the cap allows. The caller reads the clock before the limiter's lock. */
module SlidingTiming {
  import opened SlidingLog

  // ---------------------------------------------------------------- one key's readings

  /** What one reading makes of a key's log. */
  function Entered(max: int, window: int, log: seq<int>, at: int): seq<int> {
    var kept := Kept(log, at - window);
    if |kept| < max then kept + [at] else kept
  }

  /** A key's log, and the readings it was let through at, from its own readings alone. */
  function LogAfter(max: int, window: int, r: seq<int>): seq<int> {
    if r == [] then [] else Entered(max, window, LogAfter(max, window, r[..|r| - 1]), r[|r| - 1])
  }

  function Passed(max: int, window: int, r: seq<int>): seq<int> {
    if r == [] then []
    else
      var n := |r| - 1;
      var before := Passed(max, window, r[..n]);
      if |Kept(LogAfter(max, window, r[..n]), r[n] - window)| < max then before + [r[n]] else before
  }

  function ReadingsOf<K(==)>(calls: seq<Call<K>>, key: K): seq<int> {
    if calls == [] then []
    else
      var n := |calls| - 1;
      ReadingsOf(calls[..n], key) + if calls[n].key == key then [calls[n].at] else []
  }

  lemma {:induction false} Snoc(max: int, window: int, r: seq<int>, x: int)
    ensures LogAfter(max, window, r + [x]) == Entered(max, window, LogAfter(max, window, r), x)
    ensures Passed(max, window, r + [x]) ==
            Passed(max, window, r) + if |Kept(LogAfter(max, window, r), x - window)| < max then [x] else []
  {
    assert (r + [x])[..|r|] == r;
  }

  lemma {:induction false} NextLog<K(!new)>(max: int, window: int, m: Logs<K>, c: Call<K>, key: K)
    ensures LogOf(Next(max, window, m, c), key) ==
            if c.key == key then Entered(max, window, LogOf(m, key), c.at) else LogOf(m, key)
  {
  }

  lemma {:induction false} LogApart<K(!new)>(max: int, window: int, calls: seq<Call<K>>, key: K)
    ensures LogOf(After(max, window, calls), key) == LogAfter(max, window, ReadingsOf(calls, key))
    decreases |calls|
  {
    if calls != [] {
      var n := |calls| - 1;
      var r, c := ReadingsOf(calls[..n], key), calls[n];
      LogApart(max, window, calls[..n], key);
      NextLog(max, window, After(max, window, calls[..n]), c, key);
      if c.key == key { Snoc(max, window, r, c.at); } else { assert r + [] == r; }
    }
  }

  /** A key's log and grants depend on its own readings only. */
  lemma {:induction false} KeysApart<K(!new)>(max: int, window: int, calls: seq<Call<K>>, key: K)
    ensures Granted(max, window, calls, key) == Passed(max, window, ReadingsOf(calls, key))
    decreases |calls|
  {
    if calls != [] {
      var n := |calls| - 1;
      var r, c := ReadingsOf(calls[..n], key), calls[n];
      KeysApart(max, window, calls[..n], key);
      LogApart(max, window, calls[..n], key);
      if c.key == key { Snoc(max, window, r, c.at); } else { assert r + [] == r; }
    }
  }

  // ---------------------------------------------------------------- readings out of order

  predicate Near(window: int, x: int, y: int) {
    x - window < y < x + window
  }

  /** Reading `f` makes the limiter forget readings `i` and `j`, and reading `k` arrives after that
      although one window holds all of `i`, `j` and `k`. */
  predicate LateAt(window: int, r: seq<int>, i: nat, j: nat, f: nat, k: nat) {
    && i < j < f < k < |r| && r[i] <= r[f] - window && r[j] <= r[f] - window
    && Near(window, r[i], r[j]) && Near(window, r[i], r[k]) && Near(window, r[j], r[k])
  }

  ghost predicate Late(window: int, r: seq<int>) {
    exists i: nat, j: nat, f: nat, k: nat :: LateAt(window, r, i, j, f, k)
  }

  predicate Within(window: int, t: int, x: int) {
    t - window < x <= t
  }

  predicate LosesTwo(window: int, r: seq<int>, t: int, i: nat, j: nat, f: nat) {
    && i < j < f < |r| && Within(window, t, r[i]) && Within(window, t, r[j])
    && r[i] <= r[f] - window && r[j] <= r[f] - window
  }

  /** No reading makes the limiter forget two that lie in the window that ends at `t`. */
  ghost predicate LosesOne(window: int, r: seq<int>, t: int) {
    forall i: nat, j: nat, f: nat :: !LosesTwo(window, r, t, i, j, f)
  }

  lemma {:induction false} LosesPrefix(window: int, r: seq<int>, x: int, t: int)
    requires LosesOne(window, r + [x], t)
    ensures LosesOne(window, r, t)
  {
    forall i: nat, j: nat, f: nat ensures !LosesTwo(window, r, t, i, j, f) {
      assert !LosesTwo(window, r + [x], t, i, j, f);
    }
  }

  lemma {:induction false} WindowSnoc(granted: seq<int>, x: int, window: int, t: int)
    ensures InWindow(granted + [x], window, t) == InWindow(granted, window, t) + if Within(window, t, x) then 1 else 0
  {
    assert (granted + [x])[..|granted|] == granted;
  }

  /** How many entries lie in `(lo, hi]`. */
  function Between(log: seq<int>, lo: int, hi: int): nat {
    if log == [] then 0
    else Between(log[..|log| - 1], lo, hi) + if lo < log[|log| - 1] <= hi then 1 else 0
  }

  lemma {:induction false} BetweenSnoc(log: seq<int>, x: int, lo: int, hi: int)
    ensures Between(log + [x], lo, hi) == Between(log, lo, hi) + if lo < x <= hi then 1 else 0
  {
    assert (log + [x])[..|log|] == log;
  }

  lemma {:induction false} WindowIsBetween(granted: seq<int>, window: int, t: int)
    ensures InWindow(granted, window, t) == Between(granted, t - window, t)
  {
    if granted != [] { WindowIsBetween(granted[..|granted| - 1], window, t); }
  }

  lemma {:induction false} KeptSplits(log: seq<int>, lo: int, hi: int)
    requires lo <= hi
    ensures |Kept(log, lo)| == |Kept(log, hi)| + Between(log, lo, hi)
  {
    if log != [] { KeptSplits(log[..|log| - 1], lo, hi); }
  }

  /** Entries after a later cutoff are all after an earlier one. */
  lemma {:induction false} KeptAll(log: seq<int>, cut: int, lo: int)
    requires lo <= cut
    ensures Kept(Kept(log, cut), lo) == Kept(log, cut)
  {
    if log != [] {
      var n := |log| - 1;
      KeptAll(log[..n], cut, lo);
      if log[n] > cut { KeptSnoc(Kept(log[..n], cut), log[n], lo); }
    }
  }

  lemma {:induction false} BetweenKept(log: seq<int>, cutoff: int, lo: int, hi: int)
    ensures Between(Kept(log, cutoff), lo, hi) <= Between(log, lo, hi)
  {
    if log != [] {
      var n := |log| - 1;
      BetweenKept(log[..n], cutoff, lo, hi);
      if log[n] > cutoff { BetweenSnoc(Kept(log[..n], cutoff), log[n], lo, hi); }
    }
  }

  /** The log draws on what was let through, and that on the readings. */
  ghost predicate Draws(log: seq<int>, all: seq<int>, r: seq<int>, lo: int, hi: int) {
    Between(log, lo, hi) <= Between(all, lo, hi) <= Between(r, lo, hi)
  }

  lemma {:induction false} DrawStep(max: int, window: int, log: seq<int>, all: seq<int>, r: seq<int>, x: int, lo: int,
                                    hi: int)
    requires Draws(log, all, r, lo, hi)
    ensures Draws(Entered(max, window, log, x), all + (if |Kept(log, x - window)| < max then [x] else []), r + [x], lo,
            hi)
  {
    assert all + [] == all;
    BetweenKept(log, x - window, lo, hi);
    BetweenSnoc(Kept(log, x - window), x, lo, hi);
    BetweenSnoc(all, x, lo, hi);
    BetweenSnoc(r, x, lo, hi);
  }

  lemma {:induction false} StoredPassed(max: int, window: int, r: seq<int>, lo: int, hi: int)
    ensures Draws(LogAfter(max, window, r), Passed(max, window, r), r, lo, hi)
    decreases |r|
  {
    if r != [] {
      var before, x := r[..|r| - 1], r[|r| - 1];
      StoredPassed(max, window, before, lo, hi);
      DrawSnoc(max, window, before, x, lo, hi);
      assert r == before + [x];
    }
  }

  lemma {:induction false} DrawSnoc(max: int, window: int, r: seq<int>, x: int, lo: int, hi: int)
    requires Draws(LogAfter(max, window, r), Passed(max, window, r), r, lo, hi)
    ensures Draws(LogAfter(max, window, r + [x]), Passed(max, window, r + [x]), r + [x], lo, hi)
  {
    Snoc(max, window, r, x);
    DrawStep(max, window, LogAfter(max, window, r), Passed(max, window, r), r, x, lo, hi);
  }

  /** Some reading before `n` lies in `(lo, hi]`. */
  predicate Has(r: seq<int>, i: nat, n: nat, lo: int, hi: int) {
    i < n <= |r| && lo < r[i] <= hi
  }

  /** Two readings in a range are at two indices. */
  lemma {:induction false} Indices(r: seq<int>, n: nat, lo: int, hi: int) returns (i: nat, j: nat)
    requires n <= |r|
    ensures Between(r[..n], lo, hi) >= 1 ==> Has(r, j, n, lo, hi)
    ensures Between(r[..n], lo, hi) >= 2 ==> i < j && Has(r, i, n, lo, hi)
    decreases n
  {
    i, j := 0, 0;
    if n > 0 {
      assert r[..n][..n - 1] == r[..n - 1];
      i, j := Indices(r, n - 1, lo, hi);
      if lo < r[n - 1] <= hi { i, j := j, n - 1; }
    }
  }

  lemma {:induction false} FewForgotten(window: int, r: seq<int>, x: int, t: int, hi: int)
    requires LosesOne(window, r + [x], t) && hi <= x - window && hi <= t
    ensures Between(r, t - window, hi) <= 1
  {
    var n := |r|;
    var i, j := Indices(r, n, t - window, hi);
    assert r[..n] == r;
    if Between(r, t - window, hi) >= 2 { assert LosesTwo(window, r + [x], t, i, j, n); }
  }

  /** Everything let through in the window is matched by something stored in it or after it. */
  ghost predicate Matched(max: int, window: int, r: seq<int>, t: int) {
    InWindow(Passed(max, window, r), window, t) <= |Kept(LogAfter(max, window, r), t - window)|
  }

  /** A reading in the window, or before it, forgets nothing in the window or after it. */
  lemma {:induction false} EarlyStep(log: seq<int>, window: int, at: int, t: int)
    requires at <= t
    ensures |Kept(log, t - window)| <= |Kept(log, at - window)|
    ensures Kept(Kept(log, at - window), t - window) == Kept(log, t - window)
    ensures Kept(Kept(log, at - window) + [at], t - window) ==
            Kept(log, t - window) + if at > t - window then [at] else []
  {
    KeptFewer(log, at - window, t - window);
    KeptTwice(log, at - window, t - window);
    KeptSnoc(Kept(log, at - window), at, t - window);
  }

  lemma {:induction false} EarlyMatched(max: int, window: int, r: seq<int>, x: int, t: int)
    requires Matched(max, window, r, t) && x <= t
    ensures Matched(max, window, r + [x], t)
  {
    Snoc(max, window, r, x);
    EarlyStep(LogAfter(max, window, r), window, x, t);
    WindowSnoc(Passed(max, window, r), x, window, t);
  }

  lemma {:induction false} KeptShort(log: seq<int>, cutoff: int)
    ensures |Kept(log, cutoff)| <= |log|
  {
    if log != [] { KeptShort(log[..|log| - 1], cutoff); }
  }

  lemma {:induction false} EnteredFits(max: int, window: int, log: seq<int>, at: int)
    requires |log| <= max
    ensures |Entered(max, window, log, at)| <= max
  {
    KeptShort(log, at - window);
  }

  lemma {:induction false} LogFits(max: int, window: int, r: seq<int>)
    requires max > 0
    ensures |LogAfter(max, window, r)| <= max
    decreases |r|
  {
    if r != [] {
      var n := |r| - 1;
      LogFits(max, window, r[..n]);
      EnteredFits(max, window, LogAfter(max, window, r[..n]), r[n]);
    }
  }

  /** A reading past the window forgets at most one in it, and is then stored itself. */
  lemma {:induction false} PastStep(max: int, window: int, log: seq<int>, all: seq<int>, x: int, t: int)
    requires max > 0 && window > 0 && x > t && |log| <= max && InWindow(all, window, t) <= |Kept(log, t - window)|
    requires x - window <= t ==> Between(log, t - window, x - window) <= 1
    requires x - window > t ==> InWindow(all, window, t) <= 1
    ensures InWindow(all, window, t) <= |Kept(Entered(max, window, log, x), t - window)|
  {
    var cut := x - window;
    KeptAll(log, cut, t - window);
    KeptSnoc(Kept(log, cut), x, t - window);
    KeptSplits(log, t - window, cut);
    KeptShort(log, t - window);
  }

  lemma {:induction false} PastMatched(max: int, window: int, r: seq<int>, x: int, t: int)
    requires max > 0 && window > 0 && x > t && Matched(max, window, r, t) && LosesOne(window, r + [x], t)
    ensures Matched(max, window, r + [x], t)
  {
    var log, all, hi := LogAfter(max, window, r), Passed(max, window, r), if x - window <= t then x - window else t;
    LogFits(max, window, r);
    FewForgotten(window, r, x, t, hi);
    StoredPassed(max, window, r, t - window, hi);
    WindowIsBetween(all, window, t);
    PastStep(max, window, log, all, x, t);
    Snoc(max, window, r, x);
    WindowSnoc(all, x, window, t);
    assert all + [] == all;
  }

  lemma {:induction false} AllMatched(max: int, window: int, r: seq<int>, t: int)
    requires max > 0 && window > 0 && LosesOne(window, r, t)
    ensures Matched(max, window, r, t)
    decreases |r|
  {
    if r != [] {
      var n := |r| - 1;
      assert r == r[..n] + [r[n]];
      LosesPrefix(window, r[..n], r[n], t);
      AllMatched(max, window, r[..n], t);
      if r[n] <= t { EarlyMatched(max, window, r[..n], r[n], t); } else { PastMatched(max, window, r[..n], r[n], t); }
    }
  }

  lemma {:induction false} NotLateLosesOne(window: int, r: seq<int>, x: int, t: int)
    requires !Late(window, r + [x]) && Within(window, t, x)
    ensures LosesOne(window, r, t)
  {
    forall i: nat, j: nat, f: nat ensures !LosesTwo(window, r, t, i, j, f) {
      assert !LateAt(window, r + [x], i, j, f, |r|);
    }
  }

  lemma {:induction false} LatePrefix(window: int, r: seq<int>, x: int)
    requires Late(window, r)
    ensures Late(window, r + [x])
  {
    var i: nat, j: nat, f: nat, k: nat :| LateAt(window, r, i, j, f, k);
    assert LateAt(window, r + [x], i, j, f, k);
  }

  /** Readings without a late one keep the bound, in whatever order they arrive. */
  lemma {:induction false} PassedBound(max: int, window: int, r: seq<int>, t: int)
    requires max > 0 && window > 0 && !Late(window, r)
    ensures InWindow(Passed(max, window, r), window, t) <= max
    decreases |r|
  {
    if r != [] {
      var n := |r| - 1;
      var before, x := r[..n], r[n];
      assert r == before + [x];
      if Late(window, before) { LatePrefix(window, before, x); }
      PassedBound(max, window, before, t);
      Snoc(max, window, before, x);
      WindowSnoc(Passed(max, window, before), x, window, t);
      if Within(window, t, x) {
        NotLateLosesOne(window, before, x, t);
        AllMatched(max, window, before, t);
        EarlyStep(LogAfter(max, window, before), window, x, t);
      }
    }
  }

  /** In every run, whatever order the readings of a key arrive in, every interval `(t - window, t]`
      sees at most `max` of its calls let through, unless one of its readings is late. */
  lemma {:induction false} NotLateKeepsBound<K(!new)>(max: int, window: int, calls: seq<Call<K>>, key: K, t: int)
    requires max > 0 && window > 0 && !Late(window, ReadingsOf(calls, key))
    ensures InWindow(Granted(max, window, calls, key), window, t) <= max
  {
    KeysApart(max, window, calls, key);
    PassedBound(max, window, ReadingsOf(calls, key), t);
  }

  ghost predicate Rising(r: seq<int>) {
    forall i, j :: 0 <= i < j < |r| ==> r[i] <= r[j]
  }

  lemma {:induction false} OrderedRises<K(!new)>(calls: seq<Call<K>>, key: K)
    requires Ordered(calls)
    ensures Rising(ReadingsOf(calls, key))
    ensures forall x :: x in ReadingsOf(calls, key) ==> calls != [] && x <= calls[|calls| - 1].at
    decreases |calls|
  {
    if calls != [] {
      var n := |calls| - 1;
      OrderedRises(calls[..n], key);
      assert n > 0 ==> calls[n - 1].at <= calls[n].at;
      var front := ReadingsOf(calls[..n], key);
      forall i | 0 <= i < |front| ensures front[i] <= calls[n].at { assert front[i] in front; }
    }
  }

  /** In every run with readings that arrive in order, every interval `(t - window, t]` sees at most
      `max` calls let through. */
  lemma {:induction false} SlidingBound<K(!new)>(max: int, window: int, calls: seq<Call<K>>, key: K, t: int)
    requires max > 0 && window > 0 && Ordered(calls)
    ensures InWindow(Granted(max, window, calls, key), window, t) <= max
  {
    OrderedRises(calls, key);
    var r := ReadingsOf(calls, key);
    forall i: nat, j: nat, f: nat, k: nat ensures !LateAt(window, r, i, j, f, k) {
      assert f < k < |r| ==> r[f] <= r[k];
    }
    NotLateKeepsBound(max, window, calls, key, t);
  }

  // ---------------------------------------------------------------- the exact condition

  /** Readings in arrival order, some of them for the key in question. */
  function CallsOf(mine: seq<bool>, r: seq<int>): seq<Call<bool>>
    requires |mine| == |r|
  {
    seq(|r|, i requires 0 <= i < |r| => Call(mine[i], r[i]))
  }

  function Chosen(mine: seq<bool>, r: seq<int>): seq<int>
    requires |mine| == |r|
  {
    if r == [] then []
    else
      var n := |r| - 1;
      Chosen(mine[..n], r[..n]) + if mine[n] then [r[n]] else []
  }

  lemma {:induction false} ChosenReadings(mine: seq<bool>, r: seq<int>)
    requires |mine| == |r|
    ensures ReadingsOf(CallsOf(mine, r), true) == Chosen(mine, r)
    decreases |r|
  {
    if r != [] {
      var n := |r| - 1;
      ChosenReadings(mine[..n], r[..n]);
      assert CallsOf(mine, r)[..n] == CallsOf(mine[..n], r[..n]);
    }
  }

  /** Where reading `m` of the chosen ones stands among all. */
  function Place(mine: seq<bool>, r: seq<int>, m: nat): (p: nat)
    requires |mine| == |r| && m < |Chosen(mine, r)|
    ensures p < |r| && r[p] == Chosen(mine, r)[m]
    decreases |r|
  {
    var n := |r| - 1;
    if m < |Chosen(mine[..n], r[..n])| then Place(mine[..n], r[..n], m) else n
  }

  lemma {:induction false} PlaceRises(mine: seq<bool>, r: seq<int>, l: nat, m: nat)
    requires |mine| == |r| && l < m < |Chosen(mine, r)|
    ensures Place(mine, r, l) < Place(mine, r, m)
    decreases |r|
  {
    var n := |r| - 1;
    if m < |Chosen(mine[..n], r[..n])| { PlaceRises(mine[..n], r[..n], l, m); }
  }

  /** A late reading among the chosen ones is late among all. */
  lemma {:induction false} ChosenLate(window: int, mine: seq<bool>, r: seq<int>)
    requires |mine| == |r| && Late(window, Chosen(mine, r))
    ensures Late(window, r)
  {
    var i: nat, j: nat, f: nat, k: nat :| LateAt(window, Chosen(mine, r), i, j, f, k);
    PlaceRises(mine, r, i, j);
    PlaceRises(mine, r, j, f);
    PlaceRises(mine, r, f, k);
    assert LateAt(window, r, Place(mine, r, i), Place(mine, r, j), Place(mine, r, f), Place(mine, r, k));
  }

  /** Only the four readings of a late quadruple are the key's. */
  function Four(n: nat, i: nat, j: nat, f: nat, k: nat): seq<bool> {
    seq(n, m requires 0 <= m < n => m == i || m == j || m == f || m == k)
  }

  function FourUpTo(r: seq<int>, i: nat, j: nat, f: nat, k: nat, n: nat): seq<int>
    requires i < j < f < k < |r|
  {
    (if i < n then [r[i]] else []) + (if j < n then [r[j]] else [])
    + (if f < n then [r[f]] else []) + (if k < n then [r[k]] else [])
  }

  lemma {:induction false} FourChosen(r: seq<int>, i: nat, j: nat, f: nat, k: nat, n: nat)
    requires i < j < f < k < |r| && n <= |r|
    ensures Chosen(Four(|r|, i, j, f, k)[..n], r[..n]) == FourUpTo(r, i, j, f, k, n)
    decreases n
  {
    if n > 0 {
      var m := n - 1;
      FourChosen(r, i, j, f, k, m);
      var mine := Four(|r|, i, j, f, k);
      assert mine[..n][..m] == mine[..m] && r[..n][..m] == r[..m];
    }
  }

  lemma {:induction false} KeptOf(x: int, y: int, cutoff: int)
    ensures Kept([x], cutoff) == if x > cutoff then [x] else []
    ensures x <= cutoff && y <= cutoff ==> Kept([x, y], cutoff) == []
  {
    assert [x, y] == [x] + [y] && [x] == [] + [x];
    KeptSnoc([], x, cutoff);
    KeptSnoc([x], y, cutoff);
  }

  /** One more reading onto a known log, with room for it under a cap of two. */
  lemma {:induction false} OnePasses(window: int, r: seq<int>, x: int, log: seq<int>, kept: seq<int>)
    requires LogAfter(2, window, r) == log && Kept(log, x - window) == kept && |kept| < 2
    ensures LogAfter(2, window, r + [x]) == kept + [x] && Passed(2, window, r + [x]) == Passed(2, window, r) + [x]
  {
    Snoc(2, window, r, x);
  }

  lemma {:induction false} TwoPass(window: int, a: int, b: int)
    requires window > 0 && Near(window, a, b)
    ensures Passed(2, window, [a, b]) == LogAfter(2, window, [a, b]) == [a, b]
  {
    OnePasses(window, [], a, [], []);
    assert [] + [a] == [a];
    KeptOf(a, b, b - window);
    OnePasses(window, [a], b, [a], [a]);
    assert [a] + [b] == [a, b];
  }

  lemma {:induction false} ThreePass(window: int, a: int, b: int, c: int)
    requires window > 0 && Near(window, a, b) && a <= c - window && b <= c - window
    ensures Passed(2, window, [a, b] + [c]) == [a, b] + [c] && LogAfter(2, window, [a, b] + [c]) == [c]
  {
    TwoPass(window, a, b);
    KeptOf(a, b, c - window);
    OnePasses(window, [a, b], c, [a, b], []);
    assert [] + [c] == [c];
  }

  /** With a cap of two all four pass: the third empties the log of the first two. */
  lemma {:induction false} FourPass(window: int, a: int, b: int, c: int, d: int)
    requires window > 0 && Near(window, a, b) && a <= c - window && b <= c - window
    ensures Passed(2, window, [a, b, c, d]) == [a, b, c, d]
  {
    ThreePass(window, a, b, c);
    KeptOf(c, d, d - window);
    OnePasses(window, [a, b] + [c], d, [c], Kept([c], d - window));
    assert [a, b] + [c] + [d] == [a, b, c, d];
  }

  lemma {:induction false} FourInWindow(window: int, a: int, b: int, c: int, d: int, t: int)
    ensures InWindow([a, b, c, d], window, t) ==
            (if Within(window, t, a) then 1 else 0) + (if Within(window, t, b) then 1 else 0)
            + (if Within(window, t, c) then 1 else 0) + (if Within(window, t, d) then 1 else 0)
  {
    WindowSnoc([], a, window, t);
    assert [] + [a] == [a];
    WindowSnoc([a], b, window, t);
    assert [a] + [b] == [a, b];
    WindowSnoc([a, b], c, window, t);
    assert [a, b] + [c] == [a, b, c];
    WindowSnoc([a, b, c], d, window, t);
    assert [a, b, c] + [d] == [a, b, c, d];
  }

  function Max3(x: int, y: int, z: int): int {
    if x >= y && x >= z then x else if y >= z then y else z
  }

  lemma {:induction false} LateBreaksBound(window: int, r: seq<int>, i: nat, j: nat, f: nat, k: nat)
    requires window > 0 && LateAt(window, r, i, j, f, k)
    ensures InWindow(Granted(2, window, CallsOf(Four(|r|, i, j, f, k), r), true), window, Max3(r[i], r[j], r[k])) >= 3
  {
    var mine := Four(|r|, i, j, f, k);
    FourChosen(r, i, j, f, k, |r|);
    assert mine[..|r|] == mine && r[..|r|] == r;
    assert Chosen(mine, r) == [r[i], r[j], r[f], r[k]];
    ChosenReadings(mine, r);
    KeysApart(2, window, CallsOf(mine, r), true);
    FourPass(window, r[i], r[j], r[f], r[k]);
    FourInWindow(window, r[i], r[j], r[f], r[k], Max3(r[i], r[j], r[k]));
  }

  /** The bound holds whichever of the readings are the key's, and whatever the cap. */
  ghost predicate BoundForAll(window: int, r: seq<int>) {
    forall mine: seq<bool>, max, t :: |mine| == |r| && max > 0 ==>
      InWindow(Granted(max, window, CallsOf(mine, r), true), window, t) <= max
  }

  /** Readings that reach the limiter in this order keep the bound, whichever of them are a key's and
      whatever the cap, if and only if none of them is late. */
  lemma {:induction false} BoundIff(window: int, r: seq<int>)
    requires window > 0
    ensures BoundForAll(window, r) <==> !Late(window, r)
  {
    if Late(window, r) {
      var i: nat, j: nat, f: nat, k: nat :| LateAt(window, r, i, j, f, k);
      LateBreaksBound(window, r, i, j, f, k);
      assert |Four(|r|, i, j, f, k)| == |r|;
    } else {
      forall mine: seq<bool>, max, t | |mine| == |r| && max > 0
        ensures InWindow(Granted(max, window, CallsOf(mine, r), true), window, t) <= max
      {
        ChosenReadings(mine, r);
        if Late(window, Chosen(mine, r)) { ChosenLate(window, mine, r); }
        NotLateKeepsBound(max, window, CallsOf(mine, r), true, t);
      }
    }
  }

  /** The shortest case: a call that read the clock at 5 arrives after one that read 20, which made
      the limiter forget the two at 0; three calls in one window of 10 pass a cap of two. */
  lemma {:induction false} LateReadingBreaksBound()
    ensures LateAt(10, [0, 0, 20, 5], 0, 1, 2, 3)
    ensures InWindow(Passed(2, 10, [0, 0, 20, 5]), 10, 5) == 3
  {
    FourPass(10, 0, 0, 20, 5);
    FourInWindow(10, 0, 0, 20, 5, 5);
  }
}
