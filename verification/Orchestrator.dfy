/** The run pipeline with its co-sign gate: one call that advances a run, and any number of
    overlapping calls interleaved with cancellation. */
module Orchestrator {
  import opened Common

  datatype Stage = Intake | Interview | Plan | PlanReview | Approve | Execute | Verify | Fix | Settle

  datatype Mode =
    Quick | Team | Autopilot | Ralph | Ultrawork | Synthesize | InterviewOnly | PlanOnly | Other(name: string)

  const PIPELINE: seq<Stage> := [Intake, Interview, Plan, PlanReview, Approve, Execute, Verify, Fix, Settle]

  function StagesFor(m: Mode): seq<Stage> {
    match m
    case Quick => [Intake, Plan, Approve, Execute, Verify, Settle]
    case InterviewOnly => [Intake, Interview, Settle]
    case PlanOnly => [Intake, Interview, Plan, PlanReview, Settle]
    case Synthesize => [Intake, Approve, Execute, Verify, Settle]
    case _ => PIPELINE
  }

  function Idx(s: Stage): (i: nat)
    ensures i < |PIPELINE| && PIPELINE[i] == s
  {
    match s
    case Intake => 0 case Interview => 1 case Plan => 2 case PlanReview => 3 case Approve => 4
    case Execute => 5 case Verify => 6 case Fix => 7 case Settle => 8
  }

  predicate AtOrAfter(current: Stage, s: Stage) {
    Idx(s) >= Idx(current)
  }

  function NextStage(s: Stage): (t: Stage)
    ensures Idx(t) == if s == Settle then Idx(s) else Idx(s) + 1
  {
    if Idx(s) + 1 < |PIPELINE| then PIPELINE[Idx(s) + 1] else Settle
  }

  ghost predicate Ordered(stages: seq<Stage>) {
    forall i, j :: 0 <= i < j < |stages| ==> Idx(stages[i]) < Idx(stages[j])
  }

  lemma {:induction false} PipelineIndex(i: nat)
    requires i < |PIPELINE|
    ensures Idx(PIPELINE[i]) == i
  {
  }

  lemma {:induction false} PipelineOrdered()
    ensures Ordered(PIPELINE)
  {
    forall i, j | 0 <= i < j < |PIPELINE| ensures Idx(PIPELINE[i]) < Idx(PIPELINE[j]) {
      PipelineIndex(i);
      PipelineIndex(j);
    }
  }

  /** Every mode lists its stages in pipeline order. */
  lemma {:induction false} StagesOrdered(m: Mode)
    ensures Ordered(StagesFor(m))
  {
    PipelineOrdered();
  }

  /** What each mode leaves out of the pipeline; with the order, this is its list. */
  lemma {:induction false} StagesExact(m: Mode, s: Stage)
    ensures s in StagesFor(m) <==>
            match m
            case Quick => s !in {Interview, PlanReview, Fix}
            case InterviewOnly => s in {Intake, Interview, Settle}
            case PlanOnly => s !in {Approve, Execute, Verify, Fix}
            case Synthesize => s !in {Interview, Plan, PlanReview, Fix}
            case _ => true
  {
    assert s == PIPELINE[Idx(s)];
  }

  // ---------------------------------------------------------------- one call at a time

  /** What one pass of the loop meets: a context already cancelled, a stage error, the co-sign
      store's answer, and whether the state could be persisted afterwards. */
  datatype Env = Env(cancelled: bool, failed: bool, approved: bool, persisted: bool)

  datatype Status = Pending | Running | Blocked | Done | Failed | Cancelled

  /** Where a call leaves the run, and the stages it ran. */
  datatype Report = Report(stage: Stage, status: Status, ran: seq<Stage>)

  /** The stages whose work can return an error. */
  predicate CanFail(s: Stage) {
    s in {Interview, Plan, PlanReview, Execute, Verify}
  }

  datatype Outcome = Passes | Blocks | Errs

  /** A high-risk run passes approve only with an approval. */
  function StageOutcome(highRisk: bool, s: Stage, e: Env): Outcome {
    if s == Approve then (if highRisk && !e.approved then Blocks else Passes)
    else if CanFail(s) && e.failed then Errs
    else Passes
  }

  /** The call over the stages that remain in its list; `env(n)` is what its `n`-th entered pass meets. */
  function Go(highRisk: bool, stages: seq<Stage>, cursor: Stage, env: nat -> Env, n: nat): Report
    decreases |stages|
  {
    if stages == [] then Report(cursor, Done, [])
    else if !AtOrAfter(cursor, stages[0]) then Go(highRisk, stages[1..], cursor, env, n)
    else if env(n).cancelled then Report(cursor, Failed, [])
    else
      match StageOutcome(highRisk, stages[0], env(n))
      case Errs => Report(cursor, Failed, [stages[0]])
      case Blocks => Report(cursor, Blocked, [stages[0]])
      case Passes =>
        if !env(n).persisted then Report(NextStage(stages[0]), Failed, [stages[0]])
        else
          Prepend([stages[0]], Go(highRisk, stages[1..], NextStage(stages[0]), env, n + 1))
  }

  function Prepend(ran: seq<Stage>, r: Report): Report {
    r.(ran := ran + r.ran)
  }

  lemma {:induction false} PrependTwice(ran: seq<Stage>, s: Stage, r: Report)
    ensures Prepend(ran, Prepend([s], r)) == Prepend(ran + [s], r)
    ensures Prepend([], r) == r && Prepend(ran, r.(ran := [])) == r.(ran := ran)
            && Prepend(ran, r.(ran := [s])) == r.(ran := ran + [s])
  {
    assert ran + ([s] + r.ran) == (ran + [s]) + r.ran;
  }

  lemma {:induction false} HeadIsFirst(stages: seq<Stage>)
    requires Ordered(stages) && stages != []
    ensures forall t :: t in stages[1..] ==> Idx(stages[0]) < Idx(t)
    ensures Ordered(stages[1..])
  {
    forall t | t in stages[1..] ensures Idx(stages[0]) < Idx(t) {
      var i :| 0 <= i < |stages[1..]| && stages[1..][i] == t;
      assert stages[i + 1] == t;
    }
  }

  /** A call never moves the cursor back. */
  lemma {:induction false} GoForward(highRisk: bool, stages: seq<Stage>, cursor: Stage, env: nat -> Env, n: nat)
    ensures Idx(Go(highRisk, stages, cursor, env, n).stage) >= Idx(cursor)
    decreases |stages|
  {
    if stages != [] {
      if !AtOrAfter(cursor, stages[0]) {
        GoForward(highRisk, stages[1..], cursor, env, n);
      } else {
        GoForward(highRisk, stages[1..], NextStage(stages[0]), env, n + 1);
      }
    }
  }

  /** A call runs only stages of its list, at or past the cursor. */
  lemma {:induction false} GoRunsListed(highRisk: bool, stages: seq<Stage>, cursor: Stage, env: nat -> Env, n: nat)
    ensures forall s :: s in Go(highRisk, stages, cursor, env, n).ran ==> s in stages && AtOrAfter(cursor, s)
    decreases |stages|
  {
    if stages != [] {
      if !AtOrAfter(cursor, stages[0]) {
        GoRunsListed(highRisk, stages[1..], cursor, env, n);
      } else {
        GoRunsListed(highRisk, stages[1..], NextStage(stages[0]), env, n + 1);
      }
    }
  }

  ghost predicate ApprovedFrom(env: nat -> Env, n: nat) {
    exists m: nat :: m >= n && env(m).approved
  }

  ghost predicate GateHeld(r: Report, env: nat -> Env, n: nat) {
    Execute in r.ran || Idx(r.stage) > Idx(Approve) ==> Approve in r.ran && ApprovedFrom(env, n)
  }

  lemma {:induction false} GoGateHere(stages: seq<Stage>, cursor: Stage, env: nat -> Env, n: nat)
    requires stages != [] && stages[0] == Approve && Idx(cursor) <= Idx(Approve)
    ensures GateHeld(Go(true, stages, cursor, env, n), env, n)
  {
    if env(n).approved { assert ApprovedFrom(env, n); }
  }

  lemma {:induction false} GoGateLater(stages: seq<Stage>, cursor: Stage, env: nat -> Env, n: nat)
    requires stages != [] && AtOrAfter(cursor, stages[0]) && Idx(stages[0]) < Idx(Approve)
    requires GateHeld(Go(true, stages[1..], NextStage(stages[0]), env, n + 1), env, n + 1)
    ensures GateHeld(Go(true, stages, cursor, env, n), env, n)
  {
    if ApprovedFrom(env, n + 1) {
      var m: nat :| m >= n + 1 && env(m).approved;
      assert ApprovedFrom(env, n);
    }
  }

  /** Within one call of a high-risk run, execute is run, and the cursor moved past the gate, only
      past an approve stage of that call that saw approval, unless the cursor was already past. */
  lemma {:induction false} GoGate(stages: seq<Stage>, cursor: Stage, env: nat -> Env, n: nat)
    requires Ordered(stages) && Idx(cursor) <= Idx(Approve) && Approve in stages
    ensures GateHeld(Go(true, stages, cursor, env, n), env, n)
    decreases |stages|
  {
    HeadIsFirst(stages);
    if stages[0] == Approve {
      GoGateHere(stages, cursor, env, n);
    } else {
      assert Approve in stages[1..];
      if AtOrAfter(cursor, stages[0]) {
        GoGate(stages[1..], NextStage(stages[0]), env, n + 1);
        GoGateLater(stages, cursor, env, n);
      } else {
        GoGate(stages[1..], cursor, env, n);
      }
    }
  }

  function Remaining(stages: seq<Stage>, cursor: Stage): seq<Stage> {
    if stages == [] then []
    else if !AtOrAfter(cursor, stages[0]) then Remaining(stages[1..], cursor)
    else [stages[0]] + Remaining(stages[1..], NextStage(stages[0]))
  }

  /** What ends a call at a stage: the context was cancelled before it, its work failed, it is the gate
      of a high-risk run without approval, or the state could not be kept after it. */
  predicate Stops(highRisk: bool, s: Stage, e: Env) {
    || e.cancelled
    || (s in {Interview, Plan, PlanReview, Execute, Verify} && e.failed)
    || (s == Approve && highRisk && !e.approved)
    || !e.persisted
  }

  /** The first stop of a call, after `k` stages that met none. */
  ghost predicate StopsFirst(highRisk: bool, rem: seq<Stage>, env: nat -> Env, n: nat, k: nat) {
    k < |rem| && Stops(highRisk, rem[k], env(n + k)) && forall j: nat :: j < k ==> !Stops(highRisk, rem[j], env(n + j))
  }

  /** How a call ends that stops at its `k`-th remaining stage. A cancelled pass runs nothing; a failed
      stage, or the gate, is the last one run and the cursor stays before it; a state that could not
      be kept leaves the cursor past the stage. Every way but the gate's ends failed. */
  function StoppedAt(rem: seq<Stage>, cursor: Stage, e: Env, k: nat): Report
    requires k < |rem|
  {
    var before := if k == 0 then cursor else NextStage(rem[k - 1]);
    if e.cancelled then Report(before, Failed, rem[..k])
    else if rem[k] in {Interview, Plan, PlanReview, Execute, Verify} && e.failed
    then Report(before, Failed, rem[..k + 1])
    else if rem[k] == Approve && !e.approved then Report(before, Blocked, rem[..k + 1])
    else Report(NextStage(rem[k]), Failed, rem[..k + 1])
  }

  /** A low-risk run has no gate. */
  function Seen(highRisk: bool, e: Env): Env {
    if highRisk then e else e.(approved := true)
  }

  lemma {:induction false} GoStopsHere(highRisk: bool, stages: seq<Stage>, cursor: Stage, env: nat -> Env, n: nat)
    requires stages != [] && AtOrAfter(cursor, stages[0]) && Stops(highRisk, stages[0], env(n))
    ensures Go(highRisk, stages, cursor, env, n) ==
            StoppedAt(Remaining(stages, cursor), cursor, Seen(highRisk, env(n)), 0)
  {
    var rem := Remaining(stages, cursor);
    assert rem[..0] == [] && rem[..1] == [stages[0]];
  }

  /** One stage passed: the call goes on as over the rest. */
  lemma {:induction false} StoppedLater(s: Stage, rest: seq<Stage>, cursor: Stage, e: Env, k: nat)
    requires k < |rest|
    ensures StoppedAt([s] + rest, cursor, e, k + 1) == Prepend([s], StoppedAt(rest, NextStage(s), e, k))
  {
    var rem := [s] + rest;
    assert rem[..k + 1] == [s] + rest[..k] && rem[..k + 2] == [s] + rest[..k + 1];
  }

  /** A call that meets a stop ends exactly there. */
  lemma {:induction false} GoStops(highRisk: bool, stages: seq<Stage>, cursor: Stage, env: nat -> Env, n: nat, k: nat)
    requires StopsFirst(highRisk, Remaining(stages, cursor), env, n, k)
    ensures Go(highRisk, stages, cursor, env, n) ==
            StoppedAt(Remaining(stages, cursor), cursor, Seen(highRisk, env(n + k)), k)
    decreases |stages|
  {
    var rem := Remaining(stages, cursor);
    if !AtOrAfter(cursor, stages[0]) {
      GoStops(highRisk, stages[1..], cursor, env, n, k);
    } else if k == 0 {
      GoStopsHere(highRisk, stages, cursor, env, n);
    } else {
      var rest := Remaining(stages[1..], NextStage(stages[0]));
      assert rem == [stages[0]] + rest && !Stops(highRisk, rem[0], env(n + 0));
      forall j: nat | j < k - 1 ensures !Stops(highRisk, rest[j], env(n + 1 + j)) {
        assert !Stops(highRisk, rem[j + 1], env(n + (j + 1)));
      }
      assert rest[k - 1] == rem[k];
      GoStops(highRisk, stages[1..], NextStage(stages[0]), env, n + 1, k - 1);
      StoppedLater(stages[0], rest, cursor, Seen(highRisk, env(n + k)), k - 1);
    }
  }

  /** In an ordered list what remains is everything at or past the cursor. */
  lemma {:induction false} RemainingExact(stages: seq<Stage>, cursor: Stage)
    requires Ordered(stages)
    ensures forall s :: s in Remaining(stages, cursor) <==> s in stages && AtOrAfter(cursor, s)
    ensures Ordered(Remaining(stages, cursor))
    decreases |stages|
  {
    if stages != [] {
      HeadIsFirst(stages);
      assert stages == [stages[0]] + stages[1..];
      if AtOrAfter(cursor, stages[0]) {
        var rest := Remaining(stages[1..], NextStage(stages[0]));
        RemainingExact(stages[1..], NextStage(stages[0]));
        forall j | 0 <= j < |rest| ensures Idx(stages[0]) < Idx(rest[j]) { assert rest[j] in rest; }
      } else {
        RemainingExact(stages[1..], cursor);
      }
    }
  }

  ghost predicate NeverStops(highRisk: bool, rem: seq<Stage>, env: nat -> Env, n: nat) {
    forall j: nat :: j < |rem| ==> !Stops(highRisk, rem[j], env(n + j))
  }

  /** A call that meets no stop runs every stage that remains, in order, and is done. */
  lemma {:induction false} GoCompletes(highRisk: bool, stages: seq<Stage>, cursor: Stage, env: nat -> Env, n: nat)
    requires NeverStops(highRisk, Remaining(stages, cursor), env, n)
    ensures Go(highRisk, stages, cursor, env, n).status == Done
    ensures Go(highRisk, stages, cursor, env, n).ran == Remaining(stages, cursor)
    decreases |stages|
  {
    if stages != [] {
      if !AtOrAfter(cursor, stages[0]) {
        GoCompletes(highRisk, stages[1..], cursor, env, n);
      } else {
        var rem, rest := Remaining(stages, cursor), Remaining(stages[1..], NextStage(stages[0]));
        assert rem == [stages[0]] + rest && !Stops(highRisk, rem[0], env(n + 0));
        forall j: nat | j < |rest| ensures !Stops(highRisk, rest[j], env(n + 1 + j)) {
          assert !Stops(highRisk, rem[j + 1], env(n + (j + 1)));
        }
        GoCompletes(highRisk, stages[1..], NextStage(stages[0]), env, n + 1);
      }
    }
  }

  /** A blocked call stops at the gate: approve is the last stage it ran and the cursor is not past
      it, so the next call runs approve again. */
  lemma {:induction false} BlockedStopsAtGate(highRisk: bool, stages: seq<Stage>, cursor: Stage, env: nat -> Env,
                                              n: nat)
    requires Go(highRisk, stages, cursor, env, n).status == Blocked
    ensures var r := Go(highRisk, stages, cursor, env, n);
            highRisk && r.ran != [] && r.ran[|r.ran| - 1] == Approve && AtOrAfter(r.stage, Approve)
    decreases |stages|
  {
    if !AtOrAfter(cursor, stages[0]) {
      BlockedStopsAtGate(highRisk, stages[1..], cursor, env, n);
    } else if StageOutcome(highRisk, stages[0], env(n)) == Passes {
      BlockedStopsAtGate(highRisk, stages[1..], NextStage(stages[0]), env, n + 1);
    }
  }

  class RunCtx {
    const mode: Mode
    const highRisk: bool
    var stage: Stage
    var status: Status
    var stopped: bool

    constructor (mode: Mode, highRisk: bool)
      ensures this.mode == mode && this.highRisk == highRisk
      ensures stage == Intake && status == Pending && !stopped
    {
      this.mode, this.highRisk, stage, status, stopped := mode, highRisk, Intake, Pending, false;
    }

    method Cancel()
      modifies this
      ensures stopped && status == Cancelled && stage == old(stage)
    {
      stopped, status := true, Cancelled;
    }

    /** Drives the run to a blocked or final state; `ran` lists the stages it ran. */
    method Advance(env: nat -> Env) returns (ran: seq<Stage>)
      modifies this
      ensures stopped == old(stopped)
      ensures Report(stage, status, ran) ==
              if stopped then Report(old(stage), old(status), [])
              else Go(highRisk, StagesFor(mode), old(stage), env, 0)
    {
      ran := [];
      if stopped { return; }
      status := Running;
      ran := Drive(StagesFor(mode), env);
    }

    /** The stage loop of a call. */
    method Drive(stages: seq<Stage>, env: nat -> Env) returns (ran: seq<Stage>)
      requires !stopped
      modifies this
      ensures !stopped && Report(stage, status, ran) == Go(highRisk, stages, old(stage), env, 0)
    {
      ran := [];
      var n := 0;
      ghost var all := Go(highRisk, stages, stage, env, 0);
      PrependTwice([], Intake, all);
      assert stages[0..] == stages;
      for i := 0 to |stages|
        invariant !stopped
        invariant all == Prepend(ran, Go(highRisk, stages[i..], stage, env, n))
      {
        assert stages[i..][1..] == stages[i + 1..] && stages[i..][0] == stages[i];
        PrependTwice(ran, stages[i], Go(highRisk, stages[i + 1..], NextStage(stages[i]), env, n + 1));
        if !AtOrAfter(stage, stages[i]) { continue; }
        if env(n).cancelled { status := Failed; return; }
        var outcome := StageOutcome(highRisk, stages[i], env(n));
        ran := ran + [stages[i]];
        if outcome == Errs { status := Failed; return; }
        if outcome == Blocks { status := Blocked; return; }
        stage := NextStage(stages[i]);
        if !env(n).persisted { status := Failed; return; }
        n := n + 1;
      }
      status := Done;
    }
  }

  // ---------------------------------------------------------------- overlapping calls

  /** Where one call stands: past the stop check, looking at entry `i` of its list, about to run
      it, having passed it, or finished. */
  datatype Pc = Checked | Looking(i: nat) | Ready(i: nat) | Ran(i: nat) | Finished

  /** The run, its stage list and its cursor, and every call ever begun on it. */
  datatype World = World(stages: seq<Stage>, highRisk: bool, stage: Stage, stopped: bool, calls: seq<Pc>)

  datatype Event =
    | Begin
    | Enter(c: nat)
    | Look(c: nat, cancelled: bool)
    | Work(c: nat, env: Env)
    | Set(c: nat, persisted: bool)
    | Stop

  /** A call's next move, given the cursor it reads. */
  function Looked(w: World, i: nat, cancelled: bool): Pc {
    if i >= |w.stages| then Finished
    else if !AtOrAfter(w.stage, w.stages[i]) then Looking(i + 1)
    else if cancelled then Finished
    else Ready(i)
  }

  predicate Is(w: World, c: nat, pc: Pc) {
    c < |w.calls| && w.calls[c] == pc
  }

  function Put(w: World, c: nat, pc: Pc): World
    requires c < |w.calls|
  {
    w.(calls := w.calls[c := pc])
  }

  function Next(w: World, e: Event): World {
    match e
    case Begin => w.(calls := w.calls + [if w.stopped then Finished else Checked])
    case Enter(c) =>
      if Is(w, c, Checked) then Put(w, c, Looking(0)) else w
    case Look(c, cancelled) =>
      if c < |w.calls| && w.calls[c].Looking? then Put(w, c, Looked(w, w.calls[c].i, cancelled)) else w
    case Work(c, env) =>
      if !Works(w, c) then w
      else if StageOutcome(w.highRisk, StageOf(w, c), env) == Passes then Put(w, c, Ran(w.calls[c].i))
      else Put(w, c, Finished)
    case Set(c, persisted) =>
      if !Sets(w, c) then w
      else
        var i := w.calls[c].i;
        Put(w, c, if persisted then Looking(i + 1) else Finished).(stage := NextStage(w.stages[i]))
    case Stop => w.(stopped := true)
  }

  /** Call `c` is about to run a stage. */
  predicate Works(w: World, c: nat) {
    c < |w.calls| && w.calls[c].Ready? && w.calls[c].i < |w.stages|
  }

  /** Call `c` is about to move the cursor. */
  predicate Sets(w: World, c: nat) {
    c < |w.calls| && w.calls[c].Ran? && w.calls[c].i < |w.stages|
  }

  function StageOf(w: World, c: nat): Stage
    requires Works(w, c)
  {
    w.stages[w.calls[c].i]
  }

  function Run(stages: seq<Stage>, highRisk: bool, es: seq<Event>): World {
    if es == [] then World(stages, highRisk, Intake, false, [])
    else Next(Run(stages, highRisk, es[..|es| - 1]), es[|es| - 1])
  }

  predicate SeesApproval(w: World, e: Event) {
    e.Work? && Works(w, e.c) && StageOf(w, e.c) == Approve && e.env.approved
  }

  /** Event `k` runs an approve stage that sees approval. */
  predicate ApprovedAt(stages: seq<Stage>, highRisk: bool, es: seq<Event>, k: nat) {
    k < |es| && SeesApproval(Run(stages, highRisk, es[..k]), es[k])
  }

  /** Event `k` runs stage `s`. */
  predicate RunsStage(stages: seq<Stage>, highRisk: bool, es: seq<Event>, k: nat, s: Stage) {
    && k < |es| && es[k].Work?
    && Works(Run(stages, highRisk, es[..k]), es[k].c)
    && StageOf(Run(stages, highRisk, es[..k]), es[k].c) == s
  }

  /** Some approve stage of the run has seen approval. */
  ghost predicate ApprovalSeen(stages: seq<Stage>, highRisk: bool, es: seq<Event>) {
    exists k: nat :: ApprovedAt(stages, highRisk, es, k)
  }

  /** The list has its approve entry at `gate`, with only earlier stages before it. */
  ghost predicate GateAt(stages: seq<Stage>, gate: nat) {
    && gate < |stages| && stages[gate] == Approve
    && (forall i :: 0 <= i < gate ==> Idx(stages[i]) < Idx(Approve))
    && forall i :: 0 <= i < |stages| && Idx(stages[i]) > Idx(Approve) ==> gate < i
  }

  lemma {:induction false} ModeHasGate(m: Mode)
    requires Execute in StagesFor(m)
    ensures exists gate: nat :: GateAt(StagesFor(m), gate)
  {
    assert GateAt(StagesFor(m), if m == Quick then 2 else if m == Synthesize then 1 else 4);
  }

  /** A call that has got past the approve entry of its list. */
  predicate PastGate(gate: nat, pc: Pc) {
    match pc
    case Looking(i) => i > gate
    case Ready(i) => i > gate
    case Ran(i) => i >= gate
    case _ => false
  }

  /** Neither the cursor nor any call is past the gate. */
  ghost predicate Guarded(w: World, gate: nat) {
    && Idx(w.stage) <= Idx(Approve)
    && forall c :: 0 <= c < |w.calls| ==> !PastGate(gate, w.calls[c])
  }

  /** A call that is not past the gate does not get past it by a step that sees no approval. */
  lemma {:induction false} GuardedCall(w: World, e: Event, gate: nat, c: nat)
    requires w.highRisk && GateAt(w.stages, gate) && Idx(w.stage) <= Idx(Approve) && !SeesApproval(w, e)
    requires c < |Next(w, e).calls| && (c < |w.calls| ==> !PastGate(gate, w.calls[c]))
    ensures !PastGate(gate, Next(w, e).calls[c])
  {
    if e.Look? && e.c == c && c < |w.calls| && w.calls[c].Looking? {
      assert w.calls[c].i == gate ==> AtOrAfter(w.stage, w.stages[gate]);
    }
    if e.Work? && e.c == c && Works(w, c) && w.calls[c].i == gate {
      assert StageOutcome(w.highRisk, StageOf(w, c), e.env) == Blocks;
    }
  }

  lemma {:induction false} GuardedCursor(w: World, e: Event, gate: nat)
    requires GateAt(w.stages, gate) && Guarded(w, gate)
    ensures Idx(Next(w, e).stage) <= Idx(Approve)
  {
    if e.Set? && Sets(w, e.c) { assert !PastGate(gate, w.calls[e.c]); }
  }

  lemma {:induction false} GuardedStep(w: World, e: Event, gate: nat)
    requires w.highRisk && GateAt(w.stages, gate) && Guarded(w, gate) && !SeesApproval(w, e)
    ensures Guarded(Next(w, e), gate)
  {
    GuardedCursor(w, e, gate);
    forall c | 0 <= c < |Next(w, e).calls| ensures !PastGate(gate, Next(w, e).calls[c]) { GuardedCall(w, e, gate, c); }
  }

  lemma {:induction false} ApprovedPrefix(stages: seq<Stage>, highRisk: bool, es: seq<Event>, n: nat, k: nat)
    requires k < n <= |es|
    ensures ApprovedAt(stages, highRisk, es[..n], k) <==> ApprovedAt(stages, highRisk, es, k)
  {
    assert es[..n][..k] == es[..k];
  }

  lemma {:induction false} RunFixed(stages: seq<Stage>, highRisk: bool, es: seq<Event>)
    ensures Run(stages, highRisk, es).stages == stages && Run(stages, highRisk, es).highRisk == highRisk
    decreases |es|
  {
    if es != [] { RunFixed(stages, highRisk, es[..|es| - 1]); }
  }

  lemma {:induction false} RunGuarded(stages: seq<Stage>, es: seq<Event>, gate: nat)
    requires GateAt(stages, gate) && !ApprovalSeen(stages, true, es)
    ensures Guarded(Run(stages, true, es), gate)
    decreases |es|
  {
    if es != [] {
      var n := |es| - 1;
      forall k: nat ensures !ApprovedAt(stages, true, es[..n], k) {
        if k < n { ApprovedPrefix(stages, true, es, n, k); }
      }
      RunGuarded(stages, es[..n], gate);
      RunFixed(stages, true, es[..n]);
      assert !ApprovedAt(stages, true, es, n);
      GuardedStep(Run(stages, true, es[..n]), es[n], gate);
    }
  }

  /** The co-sign gate, for every mode that lists execute and every interleaving of overlapping
      calls, failures, resumptions and cancellations: a high-risk run runs execute, or any stage
      listed past the gate (verify, fix, settle), only after an earlier approve stage of that run
      saw approval. */
  lemma {:induction false} ExecuteNeedsApproval(mode: Mode, es: seq<Event>, k: nat, s: Stage)
    requires Execute in StagesFor(mode) && Idx(s) > Idx(Approve) && RunsStage(StagesFor(mode), true, es, k, s)
    ensures exists j: nat :: j < k && ApprovedAt(StagesFor(mode), true, es, j)
  {
    var stages := StagesFor(mode);
    ModeHasGate(mode);
    var gate: nat :| GateAt(stages, gate);
    BehindGate(stages, es, k, gate, s);
  }

  lemma {:induction false} BehindGate(stages: seq<Stage>, es: seq<Event>, k: nat, gate: nat, s: Stage)
    requires RunsStage(stages, true, es, k, s) && Idx(s) > Idx(Approve) && GateAt(stages, gate)
    ensures exists j: nat :: j < k && ApprovedAt(stages, true, es, j)
  {
    var w := Run(stages, true, es[..k]);
    RunFixed(stages, true, es[..k]);
    assert PastGate(gate, w.calls[es[k].c]);
    if !ApprovalSeen(stages, true, es[..k]) {
      RunGuarded(stages, es[..k], gate);
    }
    var j: nat :| ApprovedAt(stages, true, es[..k], j);
    ApprovedPrefix(stages, true, es, k, j);
  }

  // ---------------------------------------------------------------- cancellation and the cursor

  lemma {:induction false} StoppedForever(stages: seq<Stage>, highRisk: bool, es: seq<Event>, i: nat)
    requires i < |es| && es[i] == Stop
    ensures Run(stages, highRisk, es).stopped
    decreases |es|
  {
    var n := |es| - 1;
    if i < n { StoppedForever(stages, highRisk, es[..n], i); }
  }

  lemma {:induction false} FinishedStep(w: World, e: Event, c: nat)
    requires Is(w, c, Finished)
    ensures Is(Next(w, e), c, Finished)
  {
  }

  lemma {:induction false} FinishedForever(stages: seq<Stage>, highRisk: bool, es: seq<Event>, k: nat, c: nat)
    requires k <= |es| && Is(Run(stages, highRisk, es[..k]), c, Finished)
    ensures Is(Run(stages, highRisk, es), c, Finished)
    decreases |es|
  {
    var n := |es| - 1;
    if k <= n {
      assert es[..n][..k] == es[..k];
      FinishedForever(stages, highRisk, es[..n], k, c);
      FinishedStep(Run(stages, highRisk, es[..n]), es[n], c);
    } else {
      assert es[..k] == es;
    }
  }

  /** No call begun after the run was cancelled ever runs a stage. */
  lemma {:induction false} NothingRunsAfterCancel(stages: seq<Stage>, highRisk: bool, es: seq<Event>, i: nat, j: nat,
                                                  k: nat)
    requires i < j < k < |es| && es[i] == Stop && es[j] == Begin
    ensures !Works(Run(stages, highRisk, es[..k]), |Run(stages, highRisk, es[..j]).calls|)
  {
    var c := |Run(stages, highRisk, es[..j]).calls|;
    StoppedForever(stages, highRisk, es[..j], i);
    assert es[..j + 1][..j] == es[..j];
    assert Is(Run(stages, highRisk, es[..j + 1]), c, Finished);
    assert es[..k][..j + 1] == es[..j + 1];
    FinishedForever(stages, highRisk, es[..k], j + 1, c);
  }

  /** A call that holds a stage is entitled to it: the cursor is not past it. */
  predicate Entitled(w: World, pc: Pc) {
    pc.Ready? || pc.Ran? ==> pc.i < |w.stages| && AtOrAfter(w.stage, w.stages[pc.i])
  }

  ghost predicate AllEntitled(w: World) {
    forall c :: 0 <= c < |w.calls| ==> Entitled(w, w.calls[c])
  }

  /** No two calls are in progress at once. */
  ghost predicate Alone(w: World) {
    forall c, d :: 0 <= c < d < |w.calls| ==> w.calls[c] == Finished || w.calls[d] == Finished
  }

  lemma {:induction false} AloneSet(w: World, c: nat, persisted: bool)
    requires Alone(w) && AllEntitled(w) && Sets(w, c)
    ensures Idx(Next(w, Set(c, persisted)).stage) >= Idx(w.stage) && AllEntitled(Next(w, Set(c, persisted)))
  {
    assert Entitled(w, w.calls[c]);
    forall d | 0 <= d < |w.calls| && d != c ensures w.calls[d] == Finished { }
    var w' := Next(w, Set(c, persisted));
    forall d | 0 <= d < |w'.calls| ensures Entitled(w', w'.calls[d]) {
      assert d != c ==> w'.calls[d] == w.calls[d];
    }
  }

  /** Any other event leaves the cursor where it is. */
  lemma {:induction false} OtherStep(w: World, e: Event)
    requires AllEntitled(w) && !(e.Set? && Sets(w, e.c))
    ensures Next(w, e).stage == w.stage && AllEntitled(Next(w, e))
  {
    var w' := Next(w, e);
    forall d | 0 <= d < |w'.calls| ensures Entitled(w', w'.calls[d]) { OtherCall(w, e, d); }
  }

  lemma {:induction false} OtherCall(w: World, e: Event, d: nat)
    requires d < |Next(w, e).calls| && !(e.Set? && Sets(w, e.c)) && (d < |w.calls| ==> Entitled(w, w.calls[d]))
    ensures Next(w, e).stage == w.stage && Entitled(Next(w, e), Next(w, e).calls[d])
  {
  }

  lemma {:induction false} AloneStep(w: World, e: Event)
    requires Alone(w) && AllEntitled(w)
    ensures Idx(Next(w, e).stage) >= Idx(w.stage) && AllEntitled(Next(w, e))
  {
    if e.Set? && Sets(w, e.c) { AloneSet(w, e.c, e.persisted); } else { OtherStep(w, e); }
  }

  ghost predicate NoOverlap(stages: seq<Stage>, highRisk: bool, es: seq<Event>) {
    forall k: nat :: k <= |es| ==> Alone(Run(stages, highRisk, es[..k]))
  }

  lemma {:induction false} RunSnoc(stages: seq<Stage>, highRisk: bool, es: seq<Event>, j: nat)
    requires 0 < j <= |es|
    ensures Run(stages, highRisk, es[..j]) == Next(Run(stages, highRisk, es[..j - 1]), es[j - 1])
  {
    assert es[..j][..j - 1] == es[..j - 1];
  }

  lemma {:induction false} RunEntitled(stages: seq<Stage>, highRisk: bool, es: seq<Event>, j: nat)
    requires j <= |es| && NoOverlap(stages, highRisk, es)
    ensures AllEntitled(Run(stages, highRisk, es[..j]))
    decreases j
  {
    if j > 0 {
      RunEntitled(stages, highRisk, es, j - 1);
      RunSnoc(stages, highRisk, es, j);
      AloneStep(Run(stages, highRisk, es[..j - 1]), es[j - 1]);
    }
  }

  /** While calls do not overlap the stage cursor never moves back. */
  lemma {:induction false} CursorNeverBack(stages: seq<Stage>, highRisk: bool, es: seq<Event>, i: nat, j: nat)
    requires i <= j <= |es| && NoOverlap(stages, highRisk, es)
    ensures Idx(Run(stages, highRisk, es[..i]).stage) <= Idx(Run(stages, highRisk, es[..j]).stage)
    decreases j
  {
    if i < j {
      CursorNeverBack(stages, highRisk, es, i, j - 1);
      RunEntitled(stages, highRisk, es, j - 1);
      RunSnoc(stages, highRisk, es, j);
      AloneStep(Run(stages, highRisk, es[..j - 1]), es[j - 1]);
    }
  }

  /** Among overlapping calls too: a stage whose work fails, and the gate of a high-risk run without
      approval, end their call and leave the cursor; any other stage passes. */
  lemma {:induction false} WorkEnds(w: World, c: nat, env: Env)
    requires Works(w, c)
    ensures var s, w' := StageOf(w, c), Next(w, Work(c, env));
            && w'.stage == w.stage
            && (if (s in {Interview, Plan, PlanReview, Execute, Verify} && env.failed)
                   || (s == Approve && w.highRisk && !env.approved)
                then Is(w', c, Finished) else Is(w', c, Ran(w.calls[c].i)))
  {
  }

  // ---------------------------------------------------------------- a call by itself

  function RunFrom(w: World, es: seq<Event>): World
    decreases |es|
  {
    if es == [] then w else RunFrom(Next(w, es[0]), es[1..])
  }

  /** The stages call `c` runs in the course of `es`. */
  function RanBy(w: World, es: seq<Event>, c: nat): seq<Stage>
    decreases |es|
  {
    if es == [] then []
    else
      var now := if es[0].Work? && es[0].c == c && Works(w, c) then [StageOf(w, c)] else [];
      now + RanBy(Next(w, es[0]), es[1..], c)
  }

  /** Only call `c` moves, whatever order its moves are tried in; the run may be stopped meanwhile. */
  predicate Solo(es: seq<Event>, c: nat) {
    forall i :: 0 <= i < |es| ==> es[i] != Begin && (es[i] == Stop || es[i].c == c)
  }

  /** A call leaves the cursor where the report says and has run the stages it lists. */
  ghost predicate Reports(w: World, es: seq<Event>, c: nat, r: Report) {
    RunFrom(w, es).stage == r.stage && RanBy(w, es, c) == r.ran
  }

  /** Only the passes from the `n`-th on matter. */
  lemma {:induction false} GoAgrees(highRisk: bool, stages: seq<Stage>, cursor: Stage, env: nat -> Env,
                                    other: nat -> Env, n: nat)
    requires forall m: nat :: m >= n ==> env(m) == other(m)
    ensures Go(highRisk, stages, cursor, env, n) == Go(highRisk, stages, cursor, other, n)
    decreases |stages|
  {
    if stages != [] {
      if !AtOrAfter(cursor, stages[0]) {
        GoAgrees(highRisk, stages[1..], cursor, env, other, n);
      } else {
        GoAgrees(highRisk, stages[1..], NextStage(stages[0]), env, other, n + 1);
      }
    }
  }

  /** A move that changes nothing, or the stopping of the run, leaves a call's course as it is. */
  lemma {:induction false} IdleMove(w: World, es: seq<Event>, c: nat, r: Report)
    requires es != [] && Next(w, es[0]).stage == w.stage && !(es[0].Work? && es[0].c == c && Works(w, c))
    requires Reports(Next(w, es[0]), es[1..], c, r)
    ensures Reports(w, es, c, r)
  {
    assert [] + RanBy(Next(w, es[0]), es[1..], c) == RanBy(Next(w, es[0]), es[1..], c);
  }

  /** `env` with another first pass. */
  function From(e: Env, env: nat -> Env, n: nat): nat -> Env {
    (m: nat) => if m == n then e else env(m)
  }

  lemma {:induction false} FinishedStays(w: World, es: seq<Event>, c: nat)
    requires Is(w, c, Finished) && Solo(es, c)
    ensures Reports(w, es, c, Report(w.stage, Done, []))
    decreases |es|
  {
    if es != [] {
      FinishedStays(Next(w, es[0]), es[1..], c);
      IdleMove(w, es, c, Report(w.stage, Done, []));
    }
  }

  /** A call about to look at entry `i` goes on as `Go` does over the entries from there. */
  lemma {:induction false} SoloLooking(w: World, es: seq<Event>, c: nat, i: nat, n: nat) returns (env: nat -> Env)
    requires Is(w, c, Looking(i)) && i <= |w.stages| && Solo(es, c) && Is(RunFrom(w, es), c, Finished)
    ensures Reports(w, es, c, Go(w.highRisk, w.stages[i..], w.stage, env, n))
    decreases |es|
  {
    var w' := Next(w, es[0]);
    if es[0].Look? {
      if i == |w.stages| {
        env := m => CLEAR;
        FinishedStays(w', es[1..], c);
      } else if !AtOrAfter(w.stage, w.stages[i]) {
        env := SoloLooking(w', es[1..], c, i + 1, n);
        assert w.stages[i..][1..] == w.stages[i + 1..];
      } else if es[0].cancelled {
        env := m => CLEAR.(cancelled := true);
        FinishedStays(w', es[1..], c);
      } else {
        env := SoloReady(w', es[1..], c, i, n);
      }
    } else {
      env := SoloLooking(w', es[1..], c, i, n);
    }
    IdleMove(w, es, c, Go(w.highRisk, w.stages[i..], w.stage, env, n));
  }

  /** A call about to run entry `i` goes on as `Go` does past its check for cancellation. */
  lemma {:induction false} SoloReady(w: World, es: seq<Event>, c: nat, i: nat, n: nat) returns (env: nat -> Env)
    requires Is(w, c, Ready(i)) && i < |w.stages| && AtOrAfter(w.stage, w.stages[i])
    requires Solo(es, c) && Is(RunFrom(w, es), c, Finished)
    ensures Reports(w, es, c, Go(w.highRisk, w.stages[i..], w.stage, env, n))
    decreases |es|, 1
  {
    var w' := Next(w, es[0]);
    if es[0].Work? {
      env := SoloWork(w, es, c, i, n);
    } else {
      env := SoloReady(w', es[1..], c, i, n);
      IdleMove(w, es, c, Go(w.highRisk, w.stages[i..], w.stage, env, n));
    }
  }

  lemma {:induction false} SoloWork(w: World, es: seq<Event>, c: nat, i: nat, n: nat) returns (env: nat -> Env)
    requires Is(w, c, Ready(i)) && i < |w.stages| && AtOrAfter(w.stage, w.stages[i])
    requires Solo(es, c) && es != [] && es[0].Work? && Is(RunFrom(w, es), c, Finished)
    ensures Reports(w, es, c, Go(w.highRisk, w.stages[i..], w.stage, env, n))
    decreases |es|, 0
  {
    var w', s, met := Next(w, es[0]), w.stages[i], es[0].env.(cancelled := false);
    assert Works(w, c) && StageOf(w, c) == s && w.stages[i..][0] == s && w.stages[i..][1..] == w.stages[i + 1..];
    if StageOutcome(w.highRisk, s, es[0].env) == Passes {
      var rest, persisted := SoloRan(w', es[1..], c, i, n);
      env := From(met.(persisted := persisted), rest, n);
      GoAgrees(w.highRisk, w.stages[i + 1..], NextStage(s), env, rest, n + 1);
    } else {
      env := From(met, m => CLEAR, n);
      FinishedStays(w', es[1..], c);
    }
  }

  /** A call that has passed entry `i` sets the cursor and goes on, unless that could not be kept. */
  lemma {:induction false} SoloRan(w: World, es: seq<Event>, c: nat, i: nat, n: nat)
    returns (env: nat -> Env, persisted: bool)
    requires Is(w, c, Ran(i)) && i < |w.stages| && Solo(es, c) && Is(RunFrom(w, es), c, Finished)
    ensures Reports(w, es, c, if persisted then Go(w.highRisk, w.stages[i + 1..], NextStage(w.stages[i]), env, n + 1)
                              else Report(NextStage(w.stages[i]), Failed, []))
    decreases |es|
  {
    var w' := Next(w, es[0]);
    if es[0].Set? {
      persisted := es[0].persisted;
      if persisted {
        env := SoloLooking(w', es[1..], c, i + 1, n + 1);
      } else {
        env := m => CLEAR;
        FinishedStays(w', es[1..], c);
      }
    } else {
      env, persisted := SoloRan(w', es[1..], c, i, n);
    }
  }

  /** The two models of the loop are one: a call that begins, moves and finishes while no other call
      moves leaves the cursor, and has run the stages, that `Go` reports for what it met. */
  lemma {:induction false} SoloIsGo(w: World, es: seq<Event>)
    requires !w.stopped && Solo(es, |w.calls|) && Is(RunFrom(Next(w, Begin), es), |w.calls|, Finished)
    ensures exists env :: Reports(Next(w, Begin), es, |w.calls|, Go(w.highRisk, w.stages, w.stage, env, 0))
  {
    var env := SoloChecked(Next(w, Begin), es, |w.calls|);
  }

  lemma {:induction false} SoloChecked(w: World, es: seq<Event>, c: nat) returns (env: nat -> Env)
    requires Is(w, c, Checked) && Solo(es, c) && Is(RunFrom(w, es), c, Finished)
    ensures Reports(w, es, c, Go(w.highRisk, w.stages, w.stage, env, 0))
    decreases |es|
  {
    var w' := Next(w, es[0]);
    if es[0].Enter? {
      env := SoloLooking(w', es[1..], c, 0, 0);
      assert w.stages[0..] == w.stages;
    } else {
      env := SoloChecked(w', es[1..], c);
    }
    IdleMove(w, es, c, Go(w.highRisk, w.stages, w.stage, env, 0));
  }

  // ---------------------------------------------------------------- how many calls may overlap

  predicate Busy(w: World, c: nat) {
    c < |w.calls| && w.calls[c] != Finished
  }

  function InProgress(w: World): set<nat> {
    set c: nat | c < |w.calls| && Busy(w, c)
  }

  /** At no moment of the run are more than `n` calls in progress. */
  ghost predicate AtMost(stages: seq<Stage>, highRisk: bool, es: seq<Event>, n: nat) {
    forall k: nat :: k <= |es| ==> |InProgress(Run(stages, highRisk, es[..k]))| <= n
  }

  ghost predicate Monotone(stages: seq<Stage>, highRisk: bool, es: seq<Event>) {
    forall i: nat, j: nat :: i <= j <= |es| ==>
      Idx(Run(stages, highRisk, es[..i]).stage) <= Idx(Run(stages, highRisk, es[..j]).stage)
  }

  lemma {:induction false} OneIsAlone(w: World)
    requires |InProgress(w)| <= 1
    ensures Alone(w)
  {
    forall c: nat, d: nat | c < d < |w.calls| && w.calls[c] != Finished && w.calls[d] != Finished ensures false {
      assert Busy(w, c) && Busy(w, d);
      Fewer({c, d}, InProgress(w));
    }
  }

  function Below(n: nat): (s: set<nat>)
    ensures |s| == n && forall c: nat :: c in s <==> c < n
  {
    if n == 0 then {} else Below(n - 1) + {n - 1}
  }

  lemma {:induction false} FewCalls(w: World)
    ensures |InProgress(w)| <= |w.calls|
  {
    Fewer(InProgress(w), Below(|w.calls|));
  }

  lemma {:induction false} CallAdded(w: World, e: Event)
    ensures |Next(w, e).calls| >= |w.calls|
  {
  }

  /** Calls are only ever added. */
  lemma {:induction false} CallsGrow(stages: seq<Stage>, highRisk: bool, es: seq<Event>, k: nat, m: nat)
    requires k <= m <= |es|
    ensures |Run(stages, highRisk, es[..k]).calls| <= |Run(stages, highRisk, es[..m]).calls|
    decreases m
  {
    if k < m {
      CallsGrow(stages, highRisk, es, k, m - 1);
      RunSnoc(stages, highRisk, es, m);
      CallAdded(Run(stages, highRisk, es[..m - 1]), es[m - 1]);
    }
  }

  ghost predicate Reachable(w: World) {
    exists es :: Run(w.stages, w.highRisk, es) == w
  }

  lemma {:induction false} Reach(w: World, e: Event, w': World)
    requires Reachable(w) && Next(w, e) == w'
    ensures Reachable(w')
  {
    var es :| Run(w.stages, w.highRisk, es) == w;
    assert (es + [e])[..|es|] == es;
    assert Run(w.stages, w.highRisk, es + [e]) == w';
  }

  /** A run at a stage, with two calls begun. */
  function Two(stages: seq<Stage>, highRisk: bool, s: Stage, a: Pc, b: Pc): World {
    World(stages, highRisk, s, false, [a, b])
  }

  /** What a stage meets when nothing is in its way. */
  const CLEAR := Env(false, false, true, true)

  lemma {:induction false} BothEnter(stages: seq<Stage>, hr: bool)
    ensures Reachable(Two(stages, hr, Intake, Looking(0), Looking(0)))
  {
    var start := World(stages, hr, Intake, false, []);
    var one := World(stages, hr, Intake, false, [Checked]);
    assert Run(stages, hr, []) == start;
    Reach(start, Begin, one);
    Reach(one, Begin, Two(stages, hr, Intake, Checked, Checked));
    Reach(Two(stages, hr, Intake, Checked, Checked), Enter(0), Two(stages, hr, Intake, Looking(0), Checked));
    Reach(Two(stages, hr, Intake, Looking(0), Checked), Enter(1), Two(stages, hr, Intake, Looking(0), Looking(0)));
  }

  lemma {:induction false} BothPassIntake(stages: seq<Stage>, hr: bool)
    requires |stages| > 0 && stages[0] == Intake
    ensures Reachable(Two(stages, hr, Intake, Ran(0), Ran(0)))
  {
    BothEnter(stages, hr);
    Reach(Two(stages, hr, Intake, Looking(0), Looking(0)), Look(0, false),
        Two(stages, hr, Intake, Ready(0), Looking(0)));
    Reach(Two(stages, hr, Intake, Ready(0), Looking(0)), Look(1, false), Two(stages, hr, Intake, Ready(0), Ready(0)));
    Reach(Two(stages, hr, Intake, Ready(0), Ready(0)), Work(0, CLEAR), Two(stages, hr, Intake, Ran(0), Ready(0)));
    Reach(Two(stages, hr, Intake, Ran(0), Ready(0)), Work(1, CLEAR), Two(stages, hr, Intake, Ran(0), Ran(0)));
  }

  /** The second call goes one stage further while the first has yet to set the cursor. */
  lemma {:induction false} SecondGoesAhead(stages: seq<Stage>, hr: bool)
    requires |stages| > 1 && stages[0] == Intake && stages[1] != Intake
    ensures Reachable(Two(stages, hr, NextStage(stages[1]), Ran(0), Looking(2)))
  {
    BothPassIntake(stages, hr);
    Reach(Two(stages, hr, Intake, Ran(0), Ran(0)), Set(1, true), Two(stages, hr, Interview, Ran(0), Looking(1)));
    Reach(Two(stages, hr, Interview, Ran(0), Looking(1)), Look(1, false), Two(stages, hr, Interview, Ran(0), Ready(1)));
    Reach(Two(stages, hr, Interview, Ran(0), Ready(1)), Work(1, CLEAR), Two(stages, hr, Interview, Ran(0), Ran(1)));
    Reach(Two(stages, hr, Interview, Ran(0), Ran(1)), Set(1, true),
        Two(stages, hr, NextStage(stages[1]), Ran(0), Looking(2)));
  }

  lemma {:induction false} BackStep(stages: seq<Stage>, hr: bool, es: seq<Event>, e: Event)
    requires Idx(Next(Run(stages, hr, es), e).stage) < Idx(Run(stages, hr, es).stage)
    ensures Run(stages, hr, es + [e]) == Next(Run(stages, hr, es), e) && !Monotone(stages, hr, es + [e])
  {
    var all := es + [e];
    assert all[..|es|] == es && all[..|es| + 1] == all;
    assert Idx(Run(stages, hr, all[..|es| + 1]).stage) < Idx(Run(stages, hr, all[..|es|]).stage);
  }

  /** The slower of two calls sets the cursor of a stage it passed before the other went further. */
  lemma {:induction false} ListMovesBack(stages: seq<Stage>, hr: bool) returns (all: seq<Event>)
    requires |stages| > 1 && stages[0] == Intake && stages[1] != Intake
    ensures |Run(stages, hr, all).calls| == 2 && !Monotone(stages, hr, all)
  {
    SecondGoesAhead(stages, hr);
    var late := Two(stages, hr, NextStage(stages[1]), Ran(0), Looking(2));
    var es :| Run(late.stages, late.highRisk, es) == late;
    BackStep(stages, hr, es, Set(0, true));
    all := es + [Set(0, true)];
  }

  /** Overlapping calls can move the cursor back, in every mode and at either risk. */
  lemma {:induction false} OverlapCanMoveBack(mode: Mode, highRisk: bool)
    ensures exists es :: |Run(StagesFor(mode), highRisk, es).calls| == 2 && !Monotone(StagesFor(mode), highRisk, es)
  {
    var es := ListMovesBack(StagesFor(mode), highRisk);
  }

  lemma {:induction false} FewStayFew(stages: seq<Stage>, highRisk: bool, es: seq<Event>, n: nat)
    requires |Run(stages, highRisk, es).calls| <= n
    ensures AtMost(stages, highRisk, es, n)
  {
    forall k: nat | k <= |es| ensures |InProgress(Run(stages, highRisk, es[..k]))| <= n {
      CallsGrow(stages, highRisk, es, k, |es|);
      assert es[..|es|] == es;
      FewCalls(Run(stages, highRisk, es[..k]));
    }
  }

  /** The exact condition: in every mode and at either risk, every run with at most `n` calls in
      progress at a time keeps the cursor from moving back, if and only if `n` is at most one. */
  lemma {:induction false} MonotoneIff(mode: Mode, highRisk: bool, n: nat)
    ensures (forall es :: AtMost(StagesFor(mode), highRisk, es, n) ==> Monotone(StagesFor(mode), highRisk, es)) <==>
            n <= 1
  {
    var stages := StagesFor(mode);
    if n <= 1 {
      forall es | AtMost(stages, highRisk, es, n) ensures Monotone(stages, highRisk, es) {
        AloneIsMonotone(stages, highRisk, es);
      }
    } else {
      OverlapCanMoveBack(mode, highRisk);
      var es :| |Run(stages, highRisk, es).calls| == 2 && !Monotone(stages, highRisk, es);
      FewStayFew(stages, highRisk, es, n);
    }
  }

  lemma {:induction false} AloneIsMonotone(stages: seq<Stage>, highRisk: bool, es: seq<Event>)
    requires AtMost(stages, highRisk, es, 1)
    ensures Monotone(stages, highRisk, es)
  {
    forall k: nat | k <= |es| ensures Alone(Run(stages, highRisk, es[..k])) {
      OneIsAlone(Run(stages, highRisk, es[..k]));
    }
    forall i: nat, j: nat | i <= j <= |es|
      ensures Idx(Run(stages, highRisk, es[..i]).stage) <= Idx(Run(stages, highRisk, es[..j]).stage)
    {
      CursorNeverBack(stages, highRisk, es, i, j);
    }
  }
}
