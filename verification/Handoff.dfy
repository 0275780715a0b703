/** The durable consent and delivery state of one handoff offer.
    Times are clock ticks; tick 0 is the zero time, which the source refuses. */
module Handoff {
  import opened Common
  import opened Text

  datatype State = Offered | Accepted | Dispatching | Declined | Continued | Expired | Other(name: string)

  datatype Attempt = Attempt(agentAddr: string, agentKey: string, tool: string, claimedAt: int, ack: Option<int>)

  datatype Rec = Rec(expiresAt: int, state: State, updatedAt: int, note: string, attempts: seq<Attempt>)

  const MAX_ATTEMPTS := 16
  const MAX_NOTE := 500

  // ---------------------------------------------------------------- text checks

  predicate BoundedToken(s: string, max: nat) {
    Trimmed(s) && |s| <= max && !HasControl(s)
  }

  predicate BoundedText(s: string, max: nat, required: bool) {
    !(required && Blank(s)) && |s| <= max && !HasControl(s)
  }

  predicate ValidAttempt(a: Attempt) {
    && BoundedToken(a.agentAddr, 512) && BoundedToken(a.agentKey, 256) && Trimmed(a.tool)
    && BoundedText(a.tool, 256, true) && a.claimedAt != 0
    && (a.ack.Some? ==> a.ack.value != 0 && a.ack.value >= a.claimedAt)
  }

  // ---------------------------------------------------------------- the operations as functions

  /** The state as a reader sees it at `now`: waiting offers lapse at expiry. */
  function Effective(r: Rec, now: int): State {
    if (r.state == Offered || r.state == Accepted) && now != 0 && now >= r.expiresAt then Expired else r.state
  }

  predicate Allowed(from: State, next: State) {
    match from
    case Offered => next == Accepted || next == Declined || next == Expired
    case Accepted => next == Dispatching || next == Expired
    case Dispatching => next == Continued
    case _ => false
  }

  /** None is the source's error: the record is left as it was. */
  function Move(r: Rec, next: State, now: int, note: string): Option<Rec> {
    var moved := r.(state := next, updatedAt := now, note := note);
    if now == 0 || !BoundedText(note, MAX_NOTE, false) || next.Other? then None
    else if Effective(r, now) == next then Some(if r.state != next then moved else r)
    else if r.state == Dispatching && now >= r.expiresAt then None
    else if Effective(r, now) != r.state then None
    else if !Allowed(r.state, next) then None
    else Some(moved)
  }

  function Transition(r: Rec, next: State, now: int, note: string): Option<Rec> {
    if next == Dispatching || next == Continued then None else Move(r, next, now, note)
  }

  function Claim(r: Rec, a: Attempt, now: int): Option<Rec> {
    if !ValidAttempt(a) || a.claimedAt != now || |r.attempts| >= MAX_ATTEMPTS || r.state != Accepted then None
    else
      match Move(r, Dispatching, now, "continuation delivery claimed")
      case None => None
      case Some(m) => Some(m.(attempts := m.attempts + [a]))
  }

  predicate LastAcked(r: Rec) {
    r.attempts != [] && r.attempts[|r.attempts| - 1].ack.Some?
  }

  function Acknowledge(r: Rec, now: int): Option<Rec> {
    if r.state != Dispatching || r.attempts == [] || LastAcked(r) then None
    else
      match Move(r, Continued, now, "destination inbox acknowledged continuation")
      case None => None
      case Some(m) =>
        var last := |r.attempts| - 1;
        Some(m.(attempts := r.attempts[last := r.attempts[last].(ack := Some(now))]))
  }

  function Rearm(r: Rec, now: int, note: string): Option<Rec> {
    if now == 0 || !BoundedText(note, MAX_NOTE, true) || r.state != Dispatching || r.attempts == [] || LastAcked(r)
       || now >= r.expiresAt then None
    else Some(r.(state := Accepted, updatedAt := now, note := note))
  }

  // ---------------------------------------------------------------- the record updated in place

  class Handoff {
    const expiresAt: int
    var state: State
    var updatedAt: int
    var note: string
    var attempts: seq<Attempt>

    ghost function Value(): Rec
      reads this
    {
      Rec(expiresAt, state, updatedAt, note, attempts)
    }

    constructor Offer(expiresAt: int, now: int)
      ensures Value() == Rec(expiresAt, Offered, now, "", [])
    {
      this.expiresAt, state, updatedAt, note, attempts := expiresAt, Offered, now, "", [];
    }

    method MoveTo(next: State, now: int, why: string) returns (ok: bool)
      modifies this
      ensures ok == Move(old(Value()), next, now, why).Some?
      ensures Value() == if ok then Move(old(Value()), next, now, why).value else old(Value())
    {
      if now == 0 || !BoundedText(why, MAX_NOTE, false) || next.Other? { return false; }
      var effective := if (state == Offered || state == Accepted) && now >= expiresAt then Expired else state;
      if effective == next {
        if state != next { state, updatedAt, note := next, now, why; }
        return true;
      }
      if state == Dispatching && now >= expiresAt { return false; }
      if effective != state { return false; }
      if !Allowed(state, next) { return false; }
      state, updatedAt, note := next, now, why;
      ok := true;
    }

    method TransitionTo(next: State, now: int, why: string) returns (ok: bool)
      modifies this
      ensures ok == Transition(old(Value()), next, now, why).Some?
      ensures Value() == if ok then Transition(old(Value()), next, now, why).value else old(Value())
    {
      if next == Dispatching || next == Continued { return false; }
      ok := MoveTo(next, now, why);
    }

    method ClaimDelivery(a: Attempt, now: int) returns (ok: bool)
      modifies this
      ensures ok == Claim(old(Value()), a, now).Some?
      ensures Value() == if ok then Claim(old(Value()), a, now).value else old(Value())
    {
      if !ValidAttempt(a) || a.claimedAt != now { return false; }
      if |attempts| >= MAX_ATTEMPTS || state != Accepted { return false; }
      ok := MoveTo(Dispatching, now, "continuation delivery claimed");
      if ok { attempts := attempts + [a]; }
    }

    method AcknowledgeDelivery(now: int) returns (ok: bool)
      modifies this
      ensures ok == Acknowledge(old(Value()), now).Some?
      ensures Value() == if ok then Acknowledge(old(Value()), now).value else old(Value())
    {
      if state != Dispatching || |attempts| == 0 { return false; }
      var last := |attempts| - 1;
      if attempts[last].ack.Some? { return false; }
      ok := MoveTo(Continued, now, "destination inbox acknowledged continuation");
      if ok { attempts := attempts[last := attempts[last].(ack := Some(now))]; }
    }

    method RearmDelivery(now: int, why: string) returns (ok: bool)
      modifies this
      ensures ok == Rearm(old(Value()), now, why).Some?
      ensures Value() == if ok then Rearm(old(Value()), now, why).value else old(Value())
    {
      if now == 0 || !BoundedText(why, MAX_NOTE, true) || state != Dispatching { return false; }
      if |attempts| == 0 || attempts[|attempts| - 1].ack.Some? || now >= expiresAt { return false; }
      state, updatedAt, note := Accepted, now, why;
      ok := true;
    }
  }

  // ---------------------------------------------------------------- runs

  datatype Event =
    | ETransition(next: State, now: int, note: string)
    | EClaim(attempt: Attempt, now: int)
    | EAcknowledge(now: int)
    | ERearm(now: int, note: string)

  function Outcome(r: Rec, e: Event): Option<Rec> {
    match e
    case ETransition(next, now, note) => Transition(r, next, now, note)
    case EClaim(a, now) => Claim(r, a, now)
    case EAcknowledge(now) => Acknowledge(r, now)
    case ERearm(now, note) => Rearm(r, now, note)
  }

  function Step(r: Rec, e: Event): Rec {
    match Outcome(r, e) case None => r case Some(m) => m
  }

  function Run(r: Rec, es: seq<Event>): Rec {
    if es == [] then r else Step(Run(r, es[..|es| - 1]), es[|es| - 1])
  }

  /** Event `i` of the run took effect. */
  predicate Took(r: Rec, es: seq<Event>, i: nat)
    requires i < |es|
  {
    Outcome(Run(r, es[..i]), es[i]).Some?
  }

  predicate Fresh(r: Rec) {
    r.state == Offered && r.attempts == []
  }

  predicate Terminal(s: State) {
    s == Declined || s == Continued || s == Expired
  }

  /** What custody means of a record. */
  predicate Custody(r: Rec) {
    && |r.attempts| <= MAX_ATTEMPTS
    && (forall i :: 0 <= i < |r.attempts| - 1 ==> r.attempts[i].ack.None?)
    && (r.state == Continued <==> LastAcked(r))
    && (r.state == Dispatching || r.state == Continued ==> r.attempts != [])
    && !r.state.Other?
  }

  /** A claim that was accepted although its receipt already carried an acknowledgement. */
  ghost predicate PreAcked(r: Rec, es: seq<Event>) {
    exists i: nat :: PreAckedAt(r, es, i)
  }

  predicate PreAckedAt(r: Rec, es: seq<Event>, i: nat) {
    i < |es| && es[i].EClaim? && es[i].attempt.ack.Some? && Took(r, es, i)
  }

  /** Dispatching on a receipt that is already acknowledged: nothing can move it again. */
  predicate Stuck(r: Rec) {
    r.state == Dispatching && LastAcked(r)
  }

  lemma {:induction false} StuckForever(r: Rec, e: Event)
    requires Stuck(r)
    ensures Step(r, e) == r
  {
  }

  lemma {:induction false} TerminalStep(r: Rec, e: Event)
    requires Terminal(r.state)
    ensures Step(r, e) == r
  {
  }

  lemma {:induction false} CustodyStep(r: Rec, e: Event)
    requires Custody(r) && !(e.EClaim? && e.attempt.ack.Some? && Outcome(r, e).Some?)
    ensures Custody(Step(r, e))
  {
  }

  lemma {:induction false} PreAckedStep(r: Rec, e: Event)
    requires Custody(r) && e.EClaim? && e.attempt.ack.Some? && Outcome(r, e).Some?
    ensures Stuck(Step(r, e))
  {
  }

  lemma {:induction false} PreAckedPrefix(r: Rec, es: seq<Event>, i: nat)
    requires i < |es| - 1
    ensures PreAckedAt(r, es, i) <==> PreAckedAt(r, es[..|es| - 1], i)
  {
    assert es[..|es| - 1][..i] == es[..i];
  }

  lemma {:induction false} PreAckedSnoc(r: Rec, es: seq<Event>)
    requires es != []
    ensures PreAcked(r, es) <==> PreAcked(r, es[..|es| - 1]) || PreAckedAt(r, es, |es| - 1)
  {
    var n := |es| - 1;
    forall i: nat | i < n ensures PreAckedAt(r, es, i) <==> PreAckedAt(r, es[..n], i) { PreAckedPrefix(r, es, i); }
    if i: nat :| PreAckedAt(r, es, i) { assert i < n ==> PreAckedAt(r, es[..n], i); }
    if i: nat :| PreAckedAt(r, es[..n], i) { assert PreAckedAt(r, es, i); }
  }

  /** Custody over whole runs from a fresh offer: at most 16 attempts, at most one of them (the
      last) acknowledged, and continued exactly when it is. It holds if and only if no accepted
      claim arrived already acknowledged; after such a claim the record is stuck for good. */
  lemma {:induction false} CustodyIff(r: Rec, es: seq<Event>)
    requires Fresh(r)
    ensures if PreAcked(r, es) then Stuck(Run(r, es)) && !Custody(Run(r, es)) else Custody(Run(r, es))
    decreases |es|
  {
    if es != [] {
      var n := |es| - 1;
      CustodyIff(r, es[..n]);
      PreAckedSnoc(r, es);
      var before := Run(r, es[..n]);
      if PreAcked(r, es[..n]) {
        StuckForever(before, es[n]);
      } else if PreAckedAt(r, es, n) {
        PreAckedStep(before, es[n]);
      } else {
        CustodyStep(before, es[n]);
      }
    }
  }

  /** Such a run exists for every valid attempt that carries an acknowledgement. */
  lemma {:induction false} PreAckedSticks(r: Rec, a: Attempt, accepted: int)
    requires Fresh(r) && ValidAttempt(a) && a.ack.Some?
    requires accepted != 0 && accepted < r.expiresAt && a.claimedAt < r.expiresAt
    ensures var es := [ETransition(Accepted, accepted, ""), EClaim(a, a.claimedAt)];
            PreAcked(r, es) && Stuck(Run(r, es)) && !Custody(Run(r, es))
  {
    var es := [ETransition(Accepted, accepted, ""), EClaim(a, a.claimedAt)];
    assert Run(r, es[..0]) == r;
    RunSnoc(r, es, 1);
    assert Run(r, es[..1]).state == Accepted && Run(r, es[..1]).attempts == [];
    NotesFit();
    assert PreAckedAt(r, es, 1);
    CustodyIff(r, es);
  }

  /** Delivery is possible: any valid claim on a fresh offer, accepted, claimed and acknowledged
      in time, ends continued with exactly that attempt on record. */
  lemma {:induction false} DeliveryReachable(r: Rec, a: Attempt, accepted: int, acked: int)
    requires Fresh(r) && ValidAttempt(a) && a.ack.None?
    requires accepted != 0 && acked != 0 && accepted < r.expiresAt && a.claimedAt < r.expiresAt && acked < r.expiresAt
    ensures var es := [ETransition(Accepted, accepted, ""), EClaim(a, a.claimedAt), EAcknowledge(acked)];
            Run(r, es).state == Continued && Run(r, es).attempts == [a.(ack := Some(acked))]
  {
    var es := [ETransition(Accepted, accepted, ""), EClaim(a, a.claimedAt), EAcknowledge(acked)];
    assert Run(r, es[..0]) == r;
    RunSnoc(r, es, 1);
    assert Run(r, es[..1]).state == Accepted && Run(r, es[..1]).attempts == [];
    RunSnoc(r, es, 2);
    NotesFit();
    assert Run(r, es[..2]).state == Dispatching && Run(r, es[..2]).attempts == [a];
    RunSnoc(r, es, 3);
    assert es[..3] == es;
  }

  lemma {:induction false} NotesFit()
    ensures BoundedText("continuation delivery claimed", MAX_NOTE, false)
    ensures BoundedText("destination inbox acknowledged continuation", MAX_NOTE, false)
  {
  }

  /** The history of attempts only grows: an attempt keeps its destination, tool and claim time,
      and once acknowledged keeps its acknowledgement. */
  ghost predicate Extends(a: seq<Attempt>, b: seq<Attempt>) {
    |a| <= |b| && forall i :: 0 <= i < |a| ==>
      b[i].(ack := None) == a[i].(ack := None) && (a[i].ack.Some? ==> b[i] == a[i])
  }

  lemma {:induction false} AppendOnly(r: Rec, es: seq<Event>)
    ensures Extends(r.attempts, Run(r, es).attempts)
    decreases |es|
  {
    if es != [] { AppendOnly(r, es[..|es| - 1]); }
  }

  lemma {:induction false} RunSnoc(r: Rec, es: seq<Event>, j: nat)
    requires 0 < j <= |es|
    ensures Run(r, es[..j]) == Step(Run(r, es[..j - 1]), es[j - 1])
  {
    assert es[..j][..j - 1] == es[..j - 1];
  }

  predicate Closed(s: State) {
    s != Offered && s != Accepted && !s.Other?
  }

  lemma {:induction false} ClaimCloses(r: Rec, e: Event)
    requires e.EClaim? && Outcome(r, e).Some?
    ensures Closed(Step(r, e).state)
  {
  }

  /** Away from an offered or accepted record, nothing but a re-arm makes it acceptable again. */
  lemma {:induction false} OnlyRearmReopens(r: Rec, e: Event)
    requires Closed(r.state)
    requires !(e.ERearm? && Outcome(r, e).Some?)
    ensures Closed(Step(r, e).state)
  {
  }

  /** Event `k` is a re-arm that took effect. */
  predicate Rearmed(r: Rec, es: seq<Event>, k: nat) {
    k < |es| && es[k].ERearm? && Took(r, es, k)
  }

  ghost predicate NoRearm(r: Rec, es: seq<Event>, i: nat, j: nat) {
    forall k: nat :: i < k < j ==> !Rearmed(r, es, k)
  }

  predicate ClosedAt(r: Rec, es: seq<Event>, k: nat) {
    k <= |es| && Closed(Run(r, es[..k]).state)
  }

  lemma {:induction false} ClosedByClaim(r: Rec, es: seq<Event>, i: nat)
    requires i < |es| && es[i].EClaim? && Took(r, es, i)
    ensures ClosedAt(r, es, i + 1)
  {
    RunSnoc(r, es, i + 1);
    ClaimCloses(Run(r, es[..i]), es[i]);
  }

  /** One more event that is no re-arm leaves the record closed. */
  lemma {:induction false} ClosedStep(r: Rec, es: seq<Event>, k: nat)
    requires k < |es| && ClosedAt(r, es, k) && !Rearmed(r, es, k)
    ensures ClosedAt(r, es, k + 1)
  {
    RunSnoc(r, es, k + 1);
    OnlyRearmReopens(Run(r, es[..k]), es[k]);
  }

  lemma {:induction false} ClosedUntilRearm(r: Rec, es: seq<Event>, i: nat, j: nat)
    requires i < j <= |es| && NoRearm(r, es, i, j) && ClosedAt(r, es, i + 1)
    ensures ClosedAt(r, es, j)
    decreases j
  {
    if i + 1 < j {
      ClosedUntilRearm(r, es, i, j - 1);
      ClosedStep(r, es, j - 1);
    }
  }

  /** Two claims that took effect always have a re-arm that took effect between them. */
  lemma {:induction false} RearmBetweenClaims(r: Rec, es: seq<Event>, i: nat, j: nat)
    requires i < j < |es| && es[i].EClaim? && es[j].EClaim? && Took(r, es, i) && Took(r, es, j)
    ensures exists k: nat :: i < k < j && Rearmed(r, es, k)
  {
    if NoRearm(r, es, i, j) {
      ClosedByClaim(r, es, i);
      ClosedUntilRearm(r, es, i, j);
    }
  }

  // ---------------------------------------------------------------- what can be done

  /** A transition by name: an offer can be accepted or declined before it lapses, a waiting record can
      be marked expired, asking for the state a record is in changes nothing, and nothing else. */
  lemma {:induction false} TransitionTakesIff(r: Rec, next: State, now: int)
    requires now != 0
    ensures var waiting := r.state == Offered || r.state == Accepted;
            var out := Outcome(r, ETransition(next, now, ""));
            && (out.Some? && out.value != r ==> out.value == r.(state := next, updatedAt := now, note := ""))
            && (next == Accepted ==>
                  (out.Some? <==> waiting && now < r.expiresAt))
            && (next == Declined ==>
                  (out.Some? <==> r.state == Declined || (r.state == Offered && now < r.expiresAt)))
            && (next == Expired ==> (out.Some? <==> r.state == Expired || waiting))
            && (next == Dispatching || next == Continued || next.Other? ==> out == None)
            && (out.Some? ==> out.value.state == next)
  {
  }

  /** What an attempt must be. */
  lemma {:induction false} AttemptValidIff(a: Attempt)
    ensures ValidAttempt(a) <==>
            && Trimmed(a.agentAddr) && |a.agentAddr| <= 512 && !HasControl(a.agentAddr)
            && Trimmed(a.agentKey) && |a.agentKey| <= 256 && !HasControl(a.agentKey)
            && Trimmed(a.tool) && |a.tool| <= 256 && !HasControl(a.tool)
            && a.claimedAt != 0 && (a.ack == None || (a.ack.value != 0 && a.ack.value >= a.claimedAt))
  {
  }

  /** A claim takes effect exactly on an accepted record with fewer than 16 attempts, before expiry. */
  lemma {:induction false} ClaimTakesIff(r: Rec, a: Attempt, now: int)
    requires ValidAttempt(a)
    ensures var out := Outcome(r, EClaim(a, now));
            && (out.Some? <==> r.state == Accepted && |r.attempts| < 16 && a.claimedAt == now && now < r.expiresAt)
            && (out.Some? ==> out.value.state == Dispatching && out.value.attempts == r.attempts + [a])
  {
    NotesFit();
  }

  /** An acknowledgement takes effect exactly on a dispatch whose last attempt has none, before expiry. */
  lemma {:induction false} AcknowledgeTakesIff(r: Rec, now: int)
    requires now != 0
    ensures var n, out := |r.attempts|, Outcome(r, EAcknowledge(now));
            && (out.Some? <==> r.state == Dispatching && n > 0 && r.attempts[n - 1].ack == None && now < r.expiresAt)
            && (out.Some? ==> out.value.state == Continued
                              && out.value.attempts == r.attempts[..n - 1] + [r.attempts[n - 1].(ack := Some(now))])
  {
    NotesFit();
  }

  /** A re-arm takes effect exactly on a dispatch whose last attempt is not acknowledged, before expiry
      and with a note, and puts the record back where it can be claimed again. */
  lemma {:induction false} RearmTakesIff(r: Rec, now: int, why: string)
    requires now != 0 && BoundedText(why, 500, true)
    ensures var n, out := |r.attempts|, Outcome(r, ERearm(now, why));
            && (out.Some? <==> r.state == Dispatching && n > 0 && r.attempts[n - 1].ack == None && now < r.expiresAt)
            && (out.Some? ==> out.value.state == Accepted && out.value.attempts == r.attempts)
  {
  }

  /** A delivery that was not acknowledged can be tried again: from any record in such a dispatch with
      room for another attempt, a re-arm, a second claim and its acknowledgement in time end it
      continued, with both attempts on record and only the second acknowledged. */
  lemma {:induction false} RetryReachable(r: Rec, a: Attempt, rearmed: int, why: string, acked: int)
    requires r.state == Dispatching && 0 < |r.attempts| < 16 && r.attempts[|r.attempts| - 1].ack == None
    requires ValidAttempt(a) && a.ack == None && rearmed != 0 && acked != 0 && BoundedText(why, 500, true)
    requires rearmed < r.expiresAt && a.claimedAt < r.expiresAt && acked < r.expiresAt
    ensures var end := Step(Step(Step(r, ERearm(rearmed, why)), EClaim(a, a.claimedAt)), EAcknowledge(acked));
            end.state == Continued && end.attempts == r.attempts + [a.(ack := Some(acked))]
  {
    RearmTakesIff(r, rearmed, why);
    var one := Step(r, ERearm(rearmed, why));
    ClaimTakesIff(one, a, a.claimedAt);
    var two := Step(one, EClaim(a, a.claimedAt));
    AcknowledgeTakesIff(two, acked);
    assert two.attempts[..|r.attempts|] == r.attempts;
  }

  lemma {:induction false} ExpiryFixed(r: Rec, es: seq<Event>)
    ensures Run(r, es).expiresAt == r.expiresAt
    decreases |es|
  {
    if es != [] { ExpiryFixed(r, es[..|es| - 1]); }
  }

  lemma {:induction false} InTimeStep(r: Rec, e: Event)
    requires Outcome(r, e).Some? && !e.ETransition?
    ensures e.now < r.expiresAt
  {
  }

  /** Over a whole run nothing is claimed, acknowledged or re-armed at or after the offer's expiry. */
  lemma {:induction false} NothingAfterExpiry(r: Rec, es: seq<Event>, i: nat)
    requires i < |es| && Took(r, es, i) && !es[i].ETransition?
    ensures es[i].now < r.expiresAt
  {
    ExpiryFixed(r, es[..i]);
    InTimeStep(Run(r, es[..i]), es[i]);
  }

  /** Declined, continued and expired are absorbing: no run changes such a record at all. */
  lemma {:induction false} TerminalForever(r: Rec, es: seq<Event>)
    requires Terminal(r.state)
    ensures Run(r, es) == r
    decreases |es|
  {
    if es != [] {
      TerminalForever(r, es[..|es| - 1]);
      TerminalStep(r, es[|es| - 1]);
    }
  }

  lemma {:induction false} LapsedStep(r: Rec, e: Event, now: int)
    requires now != 0 && Effective(r, now) == Expired && e.now >= now
    ensures Effective(Step(r, e), now) == Expired
    ensures Step(r, e).attempts == r.attempts && Step(r, e).expiresAt == r.expiresAt
  {
  }

  /** A lapsed offer stays lapsed for every later reader, and its attempts stay as they were. */
  lemma {:induction false} LapsedForever(r: Rec, es: seq<Event>, now: int, later: int)
    requires now != 0 && later != 0 && now <= later && Effective(r, now) == Expired
    requires forall e :: e in es ==> e.now >= now
    ensures Effective(Run(r, es), now) == Expired == Effective(Run(r, es), later)
    ensures Run(r, es).attempts == r.attempts
    decreases |es|
  {
    if es != [] {
      var n := |es| - 1;
      LapsedForever(r, es[..n], now, later);
      assert es[n] in es;
      LapsedStep(Run(r, es[..n]), es[n], now);
    }
  }
}
