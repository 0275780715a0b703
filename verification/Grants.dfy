/** Written grants and pending asks: every mutation persisted as a whole file or rolled back. */
module Grants {
  import opened Common
  import opened Strings
  import opened Keys
  import opened Text

  const MAX_TEXT := 512
  const MAX_PENDING := 256

  datatype Grant = Grant(identity: string, verb: string, scope: string, once: bool, grantedBy: string,
      grantedAt: string)
  datatype Opportunity = Opportunity(identity: string, verb: string, scope: string, firstSeen: string,
      lastSeen: string, count: int)

  /** What the store holds in memory, and the lists its file holds. */
  datatype Mem = Mem(grants: map<string, Grant>, pending: map<string, Opportunity>)
  datatype File = File(grants: seq<Grant>, pending: seq<Opportunity>)

  function KeyOf(g: Grant): string {
    GrantKey(g.identity, g.verb, g.scope)
  }

  function AskKey(p: Opportunity): string {
    GrantKey(p.identity, p.verb, p.scope)
  }

  predicate ValidText(s: string) {
    s != "" && |s| <= MAX_TEXT && !HasControl(s)
  }

  predicate ValidTriple(identity: string, verb: string, scope: string) {
    ValidText(identity) && ValidText(verb) && ValidText(scope)
  }

  predicate Complete(identity: string, verb: string, scope: string) {
    identity != "" && verb != "" && scope != ""
  }

  // ---------------------------------------------------------------- the file

  function OpenGrants(gs: seq<Grant>): map<string, Grant> {
    if gs == [] then map[]
    else
      var n := |gs| - 1;
      var front := OpenGrants(gs[..n]);
      if Complete(gs[n].identity, gs[n].verb, gs[n].scope) then front[KeyOf(gs[n]) := gs[n]] else front
  }

  function OpenPending(ps: seq<Opportunity>, grants: map<string, Grant>): map<string, Opportunity> {
    if ps == [] then map[]
    else
      var n := |ps| - 1;
      var front := OpenPending(ps[..n], grants);
      if Complete(ps[n].identity, ps[n].verb, ps[n].scope) && AskKey(ps[n]) !in grants
      then front[AskKey(ps[n]) := ps[n]] else front
  }

  function Opened(f: File): Mem {
    var grants := OpenGrants(f.grants);
    Mem(grants, OpenPending(f.pending, grants))
  }

  /** Entries sit under their own key with no empty part, and nothing is both granted and pending. */
  ghost predicate WellFormed(m: Mem) {
    && (forall k :: k in m.grants ==>
         k == KeyOf(m.grants[k]) && Complete(m.grants[k].identity, m.grants[k].verb, m.grants[k].scope))
    && (forall k :: k in m.pending ==>
         k == AskKey(m.pending[k]) && Complete(m.pending[k].identity, m.pending[k].verb, m.pending[k].scope))
    && (forall k :: k in m.pending ==> k !in m.grants)
  }

  /** The file lists exactly what memory holds, in some order. */
  ghost predicate Lists(f: File, m: Mem) {
    && (forall g :: g in f.grants <==> KeyOf(g) in m.grants && m.grants[KeyOf(g)] == g)
    && (forall p :: p in f.pending <==> AskKey(p) in m.pending && m.pending[AskKey(p)] == p)
  }

  lemma {:induction false} OpenedGrants(gs: seq<Grant>)
    ensures forall k :: k in OpenGrants(gs) ==>
              OpenGrants(gs)[k] in gs && k == KeyOf(OpenGrants(gs)[k])
              && Complete(OpenGrants(gs)[k].identity, OpenGrants(gs)[k].verb, OpenGrants(gs)[k].scope)
    ensures forall g :: g in gs && Complete(g.identity, g.verb, g.scope) ==> KeyOf(g) in OpenGrants(gs)
    decreases |gs|
  {
    if gs != [] {
      var n := |gs| - 1;
      OpenedGrants(gs[..n]);
      assert gs == gs[..n] + [gs[n]];
    }
  }

  lemma {:induction false} OpenedPending(ps: seq<Opportunity>, grants: map<string, Grant>)
    ensures forall k :: k in OpenPending(ps, grants) ==>
              OpenPending(ps, grants)[k] in ps && k == AskKey(OpenPending(ps, grants)[k]) && k !in grants
              && Complete(OpenPending(ps, grants)[k].identity, OpenPending(ps, grants)[k].verb,
                   OpenPending(ps, grants)[k].scope)
    ensures forall p :: p in ps && Complete(p.identity, p.verb, p.scope) && AskKey(p) !in grants ==>
            AskKey(p) in OpenPending(ps, grants)
    decreases |ps|
  {
    if ps != [] {
      var n := |ps| - 1;
      OpenedPending(ps[..n], grants);
      assert ps == ps[..n] + [ps[n]];
    }
  }

  /** Whatever a file holds, what is loaded from it is well formed. */
  lemma {:induction false} OpenedWellFormed(f: File)
    ensures WellFormed(Opened(f))
  {
    OpenedGrants(f.grants);
    OpenedPending(f.pending, OpenGrants(f.grants));
  }

  lemma {:induction false} ReopenGrants(f: File, m: Mem)
    requires WellFormed(m) && Lists(f, m)
    ensures OpenGrants(f.grants) == m.grants
  {
    var loaded := OpenGrants(f.grants);
    OpenedGrants(f.grants);
    forall k ensures k in loaded <==> k in m.grants {
      if k in m.grants { assert m.grants[k] in f.grants; }
      if k in loaded { assert loaded[k] in f.grants; }
    }
  }

  lemma {:induction false} ReopenPending(f: File, m: Mem)
    requires WellFormed(m) && Lists(f, m)
    ensures OpenPending(f.pending, m.grants) == m.pending
  {
    var loaded := OpenPending(f.pending, m.grants);
    OpenedPending(f.pending, m.grants);
    forall k ensures k in loaded <==> k in m.pending {
      if k in m.pending { assert m.pending[k] in f.pending; }
      if k in loaded { assert loaded[k] in f.pending; }
    }
  }

  /** Reopening a file written from memory yields exactly that memory. */
  lemma {:induction false} ReopenYieldsMemory(f: File, m: Mem)
    requires WellFormed(m) && Lists(f, m)
    ensures Opened(f) == m
  {
    ReopenGrants(f, m);
    ReopenPending(f, m);
  }

  // ---------------------------------------------------------------- the operations as functions

  function Added(m: Mem, g: Grant): Mem {
    Mem(m.grants[KeyOf(g) := g], m.pending - {KeyOf(g)})
  }

  function Removed(m: Mem, k: string): Mem {
    m.(grants := m.grants - {k})
  }

  function Dropped(m: Mem, k: string): Mem {
    m.(pending := m.pending - {k})
  }

  /** The pending entry a denied call leaves, if it is recorded at all. */
  function Asked(m: Mem, identity: string, verb: string, scope: string, now: string): Option<Opportunity> {
    var k := GrantKey(identity, verb, scope);
    if k in m.grants then None
    else if k in m.pending then Some(m.pending[k].(lastSeen := now, count := m.pending[k].count + 1))
    else if |m.pending| >= MAX_PENDING then None
    else Some(Opportunity(identity, verb, scope, now, now, 1))
  }

  /** A single-use grant for (identity, verb) whose scope the caller's predicate accepts. */
  predicate Candidate(m: Mem, identity: string, verb: string, authorizes: string -> bool, k: string) {
    k in m.grants && m.grants[k].identity == identity && m.grants[k].verb == verb && m.grants[k].once
        && authorizes(m.grants[k].scope)
  }

  /** The candidate the deterministic scan meets first. */
  ghost predicate FirstCandidate(m: Mem, identity: string, verb: string, authorizes: string -> bool, k: string) {
    Candidate(m, identity, verb, authorizes, k) &&
    forall j :: Candidate(m, identity, verb, authorizes, j) ==> j == k || Less(k, j)
  }

  lemma {:induction false} ChangesWellFormed(m: Mem, g: Grant, k: string)
    requires WellFormed(m)
    ensures Complete(g.identity, g.verb, g.scope) ==> WellFormed(Added(m, g))
    ensures WellFormed(Removed(m, k)) && WellFormed(Dropped(m, k))
  {
  }

  lemma {:induction false} RecordedWellFormed(m: Mem, p: Opportunity)
    requires WellFormed(m) && Complete(p.identity, p.verb, p.scope) && AskKey(p) !in m.grants
    ensures WellFormed(m.(pending := m.pending[AskKey(p) := p]))
  {
  }

  /** The rollbacks restore a map exactly. */
  lemma {:induction false} Undo<K, V>(m: map<K, V>, k: K, v: V)
    ensures k in m ==> m[k := v][k := m[k]] == m && (m - {k})[k := m[k]] == m
    ensures k !in m ==> m[k := v] - {k} == m && m - {k} == m
  {
  }

  // ---------------------------------------------------------------- one step of the store

  datatype Op =
    | EAdd(grant: Grant)
    | ERemove(key: string)
    | EDrop(key: string)
    | ERecord(identity: string, verb: string, scope: string, now: string)
    | EConsume(key: string)

  /** Memory and the file behind it. */
  datatype World = World(mem: Mem, file: File)

  /** An operation with the file it wrote, `None` if the write failed; or a restart, which loads
      whatever the file holds. */
  datatype Event = Try(op: Op, written: Option<File>) | Restart

  /** The operation has something to do in this state; otherwise it returns without writing. */
  predicate Possible(m: Mem, op: Op) {
    match op
    case EAdd(g) => ValidTriple(g.identity, g.verb, g.scope) && |g.grantedBy| <= MAX_TEXT && !HasControl(g.grantedBy)
    case ERemove(k) => k in m.grants
    case EDrop(k) => k in m.pending
    case ERecord(identity, verb, scope, now) =>
      ValidTriple(identity, verb, scope) && Asked(m, identity, verb, scope, now).Some?
    case EConsume(k) => k in m.grants && m.grants[k].once
  }

  function Effect(m: Mem, op: Op): Mem
    requires Possible(m, op)
  {
    match op
    case EAdd(g) => Added(m, g)
    case ERemove(k) => Removed(m, k)
    case EDrop(k) => Dropped(m, k)
    case ERecord(identity, verb, scope, now) =>
      m.(pending := m.pending[GrantKey(identity, verb, scope) := Asked(m, identity, verb, scope, now).value])
    case EConsume(k) => Removed(m, k)
  }

  /** The operation was written, and so took effect. */
  predicate Commits(w: World, e: Event) {
    e.Try? && Possible(w.mem, e.op) && e.written.Some?
  }

  /** What is written lists the memory the operation leaves. */
  ghost predicate Fits(w: World, e: Event) {
    Commits(w, e) ==> Lists(e.written.value, Effect(w.mem, e.op))
  }

  function Next(w: World, e: Event): World {
    if Commits(w, e) then World(Effect(w.mem, e.op), e.written.value)
    else if e == Restart then World(Opened(w.file), w.file)
    else w
  }

  /** The store stepped as `op` does, committing if and only if `ok`. */
  ghost predicate Stepped(w: World, op: Op, ok: bool, w': World) {
    var e := Try(op, if ok then Some(w'.file) else None);
    (ok ==> Possible(w.mem, op)) && Fits(w, e) && w' == Next(w, e)
  }

  /** A restart at any moment would load exactly what memory holds. */
  ghost predicate Synced(w: World) {
    WellFormed(w.mem) && Opened(w.file) == w.mem
  }

  /** Entries stored through Add or Record have NUL-free parts. */
  ghost predicate Clean(m: Mem) {
    && (forall k :: k in m.grants ==>
         '\0' !in m.grants[k].identity && '\0' !in m.grants[k].verb && '\0' !in m.grants[k].scope)
    && (forall k :: k in m.pending ==>
         '\0' !in m.pending[k].identity && '\0' !in m.pending[k].verb && '\0' !in m.pending[k].scope)
  }

  /** What a triple's parts must be: not empty, no longer than 512, and free of the control characters
      below 0x20 and from 0x7F to 0x9F. */
  lemma {:induction false} ValidIff(s: string)
    ensures ValidText(s) <==>
            s != "" && |s| <= 512 && forall c :: c in s ==> c >= '\U{20}' && !('\U{7F}' <= c <= '\U{9F}')
  {
    if ValidText(s) {
      forall c | c in s ensures !IsControl(c) {
        var i :| 0 <= i < |s| && s[i] == c;
      }
    }
    assert forall i :: 0 <= i < |s| ==> s[i] in s;
  }

  lemma {:induction false} ValidIsClean(s: string)
    requires ValidText(s)
    ensures '\0' !in s
  {
    forall i | 0 <= i < |s| ensures s[i] != '\0' { assert !IsControl(s[i]); }
  }

  /** Exactly this triple is granted. */
  ghost predicate Granted(m: Mem, identity: string, verb: string, scope: string) {
    exists k :: k in m.grants && m.grants[k].identity == identity && m.grants[k].verb == verb
        && m.grants[k].scope == scope
  }

  /** The grant held for a triple's key, and the ask pending for it. */
  function GrantAt(m: Mem, identity: string, verb: string, scope: string): Option<Grant> {
    var k := GrantKey(identity, verb, scope);
    if k in m.grants then Some(m.grants[k]) else None
  }

  function AskAt(m: Mem, identity: string, verb: string, scope: string): Option<Opportunity> {
    var k := GrantKey(identity, verb, scope);
    if k in m.pending then Some(m.pending[k]) else None
  }

  /** Every triple but one is as it was. */
  ghost predicate OthersKept(m: Mem, m': Mem, key: string) {
    forall i, v, s :: GrantKey(i, v, s) != key ==>
      GrantAt(m', i, v, s) == GrantAt(m, i, v, s) && AskAt(m', i, v, s) == AskAt(m, i, v, s)
  }

  /** What a committed operation leaves for its own triple; every other triple is as it was. */
  lemma {:induction false} AddExact(w: World, g: Grant, f: File)
    requires Possible(w.mem, EAdd(g))
    ensures var m' := Next(w, Try(EAdd(g), Some(f))).mem;
            && GrantAt(m', g.identity, g.verb, g.scope) == Some(g) && AskAt(m', g.identity, g.verb, g.scope) == None
            && Granted(m', g.identity, g.verb, g.scope) && OthersKept(w.mem, m', KeyOf(g))
  {
  }

  lemma {:induction false} RemoveExact(w: World, identity: string, verb: string, scope: string, f: File)
    requires WellFormed(w.mem) && GrantKey(identity, verb, scope) in w.mem.grants
    ensures var k := GrantKey(identity, verb, scope);
            forall op :: op in {ERemove(k), EConsume(k)} && Possible(w.mem, op) ==>
              var m' := Next(w, Try(op, Some(f))).mem;
              && GrantAt(m', identity, verb, scope) == None && !Granted(m', identity, verb, scope)
              && AskAt(m', identity, verb, scope) == None && OthersKept(w.mem, m', k)
  {
    var k := GrantKey(identity, verb, scope);
    forall op | op in {ERemove(k), EConsume(k)} && Possible(w.mem, op)
      ensures !Granted(Next(w, Try(op, Some(f))).mem, identity, verb, scope)
    {
      EffectKeepsKeys(w.mem, k);
      LookupExact(Removed(w.mem, k), identity, verb, scope);
    }
  }

  lemma {:induction false} EffectKeepsKeys(m: Mem, k: string)
    requires WellFormed(m)
    ensures WellFormed(Removed(m, k))
  {
  }

  lemma {:induction false} DropExact(w: World, identity: string, verb: string, scope: string, f: File)
    requires GrantKey(identity, verb, scope) in w.mem.pending
    ensures var m' := Next(w, Try(EDrop(GrantKey(identity, verb, scope)), Some(f))).mem;
            && AskAt(m', identity, verb, scope) == None
            && GrantAt(m', identity, verb, scope) == GrantAt(w.mem, identity, verb, scope)
            && OthersKept(w.mem, m', GrantKey(identity, verb, scope))
  {
  }

  /** A first ask is pending with a count of one; a repeated one is counted once more and keeps when it
      was first seen; a granted triple, and a new one beyond 256 asks, is not recorded. */
  lemma {:induction false} RecordExact(w: World, identity: string, verb: string, scope: string, now: string, f: File)
    requires ValidTriple(identity, verb, scope)
    ensures var m, m' := w.mem, Next(w, Try(ERecord(identity, verb, scope, now), Some(f))).mem;
            && GrantAt(m', identity, verb, scope) == GrantAt(m, identity, verb, scope)
            && OthersKept(m, m', GrantKey(identity, verb, scope))
            && AskAt(m', identity, verb, scope) ==
               if GrantAt(m, identity, verb, scope).Some? then AskAt(m, identity, verb, scope)
               else if AskAt(m, identity, verb, scope).Some? then
                 var p := AskAt(m, identity, verb, scope).value;
                 Some(Opportunity(p.identity, p.verb, p.scope, p.firstSeen, now, p.count + 1))
               else if |m.pending| >= 256 then None
               else Some(Opportunity(identity, verb, scope, now, now, 1))
  {
  }

  /** A lookup with arbitrary arguments hits if, and in a NUL-free store only if, exactly that
      triple is granted. */
  lemma {:induction false} LookupExact(m: Mem, identity: string, verb: string, scope: string)
    requires WellFormed(m)
    ensures Granted(m, identity, verb, scope) ==> GrantKey(identity, verb, scope) in m.grants
    ensures Clean(m) && GrantKey(identity, verb, scope) in m.grants ==> Granted(m, identity, verb, scope)
  {
    var k := GrantKey(identity, verb, scope);
    if Clean(m) && k in m.grants {
      var g := m.grants[k];
      GrantKeyUnambiguous(g.identity, g.verb, g.scope, identity, verb, scope);
    }
  }

  lemma {:induction false} AskedShape(m: Mem, p: Opportunity, identity: string, verb: string, scope: string,
                                      now: string)
    requires WellFormed(m) && ValidTriple(identity, verb, scope) && Asked(m, identity, verb, scope, now) == Some(p)
    ensures AskKey(p) == GrantKey(identity, verb, scope) && AskKey(p) !in m.grants
            && Complete(p.identity, p.verb, p.scope)
  {
  }

  /** Recording the ask that is due is the step of the store. */
  lemma {:induction false} AskStepped(w: World, p: Opportunity, identity: string, verb: string, scope: string,
                                      now: string, ok: bool, w': World)
    requires ValidTriple(identity, verb, scope) && Asked(w.mem, identity, verb, scope, now) == Some(p)
    requires AskKey(p) == GrantKey(identity, verb, scope)
    requires if ok then w'.mem == w.mem.(pending := w.mem.pending[AskKey(p) := p]) && Lists(w'.file, w'.mem)
             else w' == w
    ensures Possible(w.mem, ERecord(identity, verb, scope, now))
    ensures Stepped(w, ERecord(identity, verb, scope, now), ok, w')
  {
  }

  // ---------------------------------------------------------------- the store

  class GrantStore {
    var grants: map<string, Grant>
    var pending: map<string, Opportunity>
    var file: File

    ghost function Value(): Mem
      reads this
    {
      Mem(grants, pending)
    }

    ghost function State(): World
      reads this
    {
      World(Value(), file)
    }

    ghost predicate Valid()
      reads this
    {
      Synced(State())
    }

    constructor Open(file: File)
      ensures Valid() && this.file == file && Value() == Opened(file)
    {
      this.file, grants, pending := file, map[], map[];
      new;
      for i := 0 to |file.grants|
        invariant grants == OpenGrants(file.grants[..i]) && pending == map[] && this.file == file
      {
        var g := file.grants[i];
        assert file.grants[..i + 1][..i] == file.grants[..i];
        if g.identity != "" && g.verb != "" && g.scope != "" { grants := grants[KeyOf(g) := g]; }
      }
      assert file.grants[..|file.grants|] == file.grants;
      for i := 0 to |file.pending|
        invariant grants == OpenGrants(file.grants) && pending == OpenPending(file.pending[..i], grants)
                  && this.file == file
      {
        var p := file.pending[i];
        assert file.pending[..i + 1][..i] == file.pending[..i];
        if p.identity == "" || p.verb == "" || p.scope == "" { continue; }
        if AskKey(p) in grants { continue; }
        pending := pending[AskKey(p) := p];
      }
      assert file.pending[..|file.pending|] == file.pending;
      OpenedWellFormed(file);
    }

    /** Writes the whole store, or fails and leaves the file as it was. */
    method Persist(saved: bool) returns (ok: bool)
      requires WellFormed(Value())
      modifies this`file
      ensures ok == saved
      ensures if ok then Lists(file, Value()) && Opened(file) == Value() else file == old(file)
    {
      if !saved { return false; }
      var gs := ListGrants(grants);
      var ps := ListPending(pending);
      file := File(gs, ps);
      ReopenYieldsMemory(file, Value());
      ok := true;
    }

    /** Puts a grant into memory, resolves its ask, and writes both, or undoes both. */
    method SaveGrant(g: Grant, saved: bool) returns (ok: bool)
      requires Valid() && Complete(g.identity, g.verb, g.scope)
      modifies this
      ensures ok == saved && Valid()
      ensures if ok then Value() == Added(old(Value()), g) && Lists(file, Value()) else State() == old(State())
    {
      var k := KeyOf(g);
      var prevGrant := if k in grants then Some(grants[k]) else None;
      var prevPend := if k in pending then Some(pending[k]) else None;
      ChangesWellFormed(Value(), g, k);
      Undo(grants, k, g);
      if prevPend.Some? { Undo(pending, k, prevPend.value); }
      grants, pending := grants[k := g], pending - {k};
      ok := Persist(saved);
      if !ok {
        grants := if prevGrant.Some? then grants[k := prevGrant.value] else grants - {k};
        if prevPend.Some? { pending := pending[k := prevPend.value]; }
      }
    }

    method Add(identity: string, verb: string, scope: string, once: bool, approver: string, now: string, saved: bool)
      returns (ok: bool)
      requires Valid()
      modifies this
      ensures Valid()
      ensures ok ==
              (saved && ValidTriple(identity, verb, scope) && |Trim(approver)| <= MAX_TEXT
                  && !HasControl(Trim(approver)))
      ensures Stepped(old(State()), EAdd(Grant(identity, verb, scope, once, Trim(approver), now)), ok, State())
      ensures ok ==> Granted(Value(), identity, verb, scope)
      ensures ok ==> GrantAt(Value(), identity, verb, scope) ==
                     Some(Grant(identity, verb, scope, once, Trim(approver), now))
    {
      if !ValidTriple(identity, verb, scope) { return false; }
      var grantedBy := Trim(approver);
      if |grantedBy| > MAX_TEXT || HasControl(grantedBy) { return false; }
      var g := Grant(identity, verb, scope, once, grantedBy, now);
      ok := SaveGrant(g, saved);
      if ok { AddExact(old(State()), g, file); }
    }

    method Remove(identity: string, verb: string, scope: string, saved: bool) returns (removed: bool)
      requires Valid()
      modifies this
      ensures Valid()
      ensures removed == (saved && GrantKey(identity, verb, scope) in old(grants))
      ensures Stepped(old(State()), ERemove(GrantKey(identity, verb, scope)), removed, State())
      ensures removed ==> !Granted(Value(), identity, verb, scope)
    {
      var k := GrantKey(identity, verb, scope);
      if k !in grants { return false; }
      var g := grants[k];
      ChangesWellFormed(Value(), g, k);
      Undo(grants, k, g);
      grants := grants - {k};
      removed := Persist(saved);
      if !removed { grants := grants[k := g]; }
      if removed { RemoveExact(old(State()), identity, verb, scope, file); }
    }

    method DropOpportunity(identity: string, verb: string, scope: string, saved: bool) returns (removed: bool)
      requires Valid()
      modifies this
      ensures Valid()
      ensures removed == (saved && GrantKey(identity, verb, scope) in old(pending))
      ensures Stepped(old(State()), EDrop(GrantKey(identity, verb, scope)), removed, State())
      ensures removed ==> AskAt(Value(), identity, verb, scope) == None
    {
      var k := GrantKey(identity, verb, scope);
      if k !in pending { return false; }
      var p := pending[k];
      ChangesWellFormed(Value(), Grant(identity, verb, scope, false, "", ""), k);
      Undo(pending, k, p);
      pending := pending - {k};
      removed := Persist(saved);
      if !removed { pending := pending[k := p]; }
    }

    /** Puts an ask into memory and writes it, or takes it out again. */
    method SaveAsk(p: Opportunity, saved: bool) returns (ok: bool)
      requires Valid() && Complete(p.identity, p.verb, p.scope) && AskKey(p) !in grants
      modifies this
      ensures ok == saved && Valid()
      ensures if ok then Value() == old(Value()).(pending := old(pending)[AskKey(p) := p]) && Lists(file, Value())
              else State() == old(State())
    {
      var k := AskKey(p);
      var existing := if k in pending then Some(pending[k]) else None;
      RecordedWellFormed(Value(), p);
      Undo(pending, k, p);
      pending := pending[k := p];
      ok := Persist(saved);
      if !ok { pending := if existing.Some? then pending[k := existing.value] else pending - {k}; }
    }

    /** The ask a denied call leaves, if it is recorded at all. */
    method Due(identity: string, verb: string, scope: string, now: string) returns (p: Option<Opportunity>)
      ensures p == Asked(Value(), identity, verb, scope, now)
    {
      var k := GrantKey(identity, verb, scope);
      if k in grants { return None; }
      if k in pending { return Some(pending[k].(lastSeen := now, count := pending[k].count + 1)); }
      if |pending| >= MAX_PENDING { return None; }
      p := Some(Opportunity(identity, verb, scope, now, now, 1));
    }

    /** `added` tells a new ask from a repeated one. */
    method Record(identity: string, verb: string, scope: string, now: string, saved: bool)
      returns (recorded: bool, added: bool)
      requires Valid()
      modifies this
      ensures Valid()
      ensures recorded == (saved && Possible(old(Value()), ERecord(identity, verb, scope, now)))
      ensures added == (recorded && GrantKey(identity, verb, scope) !in old(pending))
      ensures Stepped(old(State()), ERecord(identity, verb, scope, now), recorded, State())
      ensures recorded ==> AskAt(Value(), identity, verb, scope).Some?
                           && AskAt(Value(), identity, verb, scope).value.lastSeen == now
    {
      if !ValidTriple(identity, verb, scope) { return false, false; }
      var due := Due(identity, verb, scope, now);
      if due.None? { return false, false; }
      var p, isNew := due.value, GrantKey(identity, verb, scope) !in pending;
      AskedShape(Value(), p, identity, verb, scope, now);
      recorded := SaveAsk(p, saved);
      AskStepped(old(State()), p, identity, verb, scope, now, recorded, State());
      added := recorded && isNew;
    }

    /** Whether exactly this triple is granted, as long as the store's entries are NUL-free. */
    method Check(identity: string, verb: string, scope: string) returns (ok: bool)
      requires Valid()
      ensures Granted(Value(), identity, verb, scope) ==> ok
      ensures ok && Clean(Value()) ==> Granted(Value(), identity, verb, scope)
      ensures ok ==> exists k :: k in grants && KeyOf(grants[k]) == GrantKey(identity, verb, scope)
    {
      LookupExact(Value(), identity, verb, scope);
      ok := GrantKey(identity, verb, scope) in grants;
    }

    /** A restart: a new store over the same file. */
    method Reopen() returns (store: GrantStore)
      requires Valid()
      ensures fresh(store) && store.Valid() && store.State() == Next(State(), Restart) == State()
    {
      store := new GrantStore.Open(file);
    }

    /** Spends the first single-use grant that authorizes the call, or nothing. */
    method ConsumeOnceMatching(identity: string, verb: string, authorizes: string -> bool, saved: bool)
      returns (spent: Option<string>)
      requires Valid()
      modifies this
      ensures Valid()
      ensures spent.Some? ==> saved && FirstCandidate(old(Value()), identity, verb, authorizes, spent.value)
                              && Stepped(old(State()), EConsume(spent.value), true, State())
      ensures spent.None? ==> State() == old(State())
                              && (saved ==> forall k :: !Candidate(old(Value()), identity, verb, authorizes, k))
    {
      var keys := OnceKeys(grants, identity, verb);
      for i := 0 to |keys|
        invariant Value() == old(Value()) && file == old(file)
        invariant forall j :: 0 <= j < i ==> !authorizes(grants[keys[j]].scope)
      {
        var k := keys[i];
        if !authorizes(grants[k].scope) { continue; }
        forall j | Candidate(Value(), identity, verb, authorizes, j) ensures j == k || Less(k, j) {
          assert j in keys;
        }
        var g := grants[k];
        ChangesWellFormed(Value(), g, k);
        Undo(grants, k, g);
        grants := grants - {k};
        var ok := Persist(saved);
        if !ok {
          grants := grants[k := g];
          return None;
        }
        return Some(k);
      }
      forall k ensures !Candidate(Value(), identity, verb, authorizes, k) {
        assert k in keys ==> !authorizes(grants[k].scope);
      }
      spent := None;
    }
  }

  method ListGrants(m: map<string, Grant>) returns (gs: seq<Grant>)
    requires forall k :: k in m ==> k == KeyOf(m[k])
    ensures forall g :: g in gs <==> KeyOf(g) in m && m[KeyOf(g)] == g
  {
    gs := [];
    var todo := m.Keys;
    while todo != {}
      invariant todo <= m.Keys
      invariant forall g :: g in gs <==> KeyOf(g) in m && KeyOf(g) !in todo && m[KeyOf(g)] == g
      decreases |todo|
    {
      var k :| k in todo;
      todo := todo - {k};
      gs := gs + [m[k]];
    }
  }

  method ListPending(m: map<string, Opportunity>) returns (ps: seq<Opportunity>)
    requires forall k :: k in m ==> k == AskKey(m[k])
    ensures forall p :: p in ps <==> AskKey(p) in m && m[AskKey(p)] == p
  {
    ps := [];
    var todo := m.Keys;
    while todo != {}
      invariant todo <= m.Keys
      invariant forall p :: p in ps <==> AskKey(p) in m && AskKey(p) !in todo && m[AskKey(p)] == p
      decreases |todo|
    {
      var k :| k in todo;
      todo := todo - {k};
      ps := ps + [m[k]];
    }
  }

  /** The keys of the single-use grants for (identity, verb), sorted. */
  method OnceKeys(m: map<string, Grant>, identity: string, verb: string) returns (keys: seq<string>)
    ensures Ascending(keys)
    ensures forall k :: k in keys <==> k in m && m[k].identity == identity && m[k].verb == verb && m[k].once
  {
    keys := [];
    var todo := m.Keys;
    while todo != {}
      invariant todo <= m.Keys && Ascending(keys)
      invariant forall k :: k in keys <==>
                k in m && k !in todo && m[k].identity == identity && m[k].verb == verb && m[k].once
      decreases |todo|
    {
      var k :| k in todo;
      todo := todo - {k};
      if m[k].identity == identity && m[k].verb == verb && m[k].once { keys := InsertString(keys, k); }
    }
  }

  // ---------------------------------------------------------------- runs

  ghost predicate Reaches(w: World, es: seq<Event>, w': World)
    decreases |es|
  {
    if es == [] then w == w' else Fits(w, es[0]) && Reaches(Next(w, es[0]), es[1..], w')
  }

  /** The single-use grants of a key that were written, and the consumptions of it that committed,
      in a run from `w`. A failed write counts for nothing. */
  function OnceAdds(w: World, es: seq<Event>, k: string): nat
    decreases |es|
  {
    if es == [] then 0
    else OnceAdds(Next(w, es[0]), es[1..], k) + if Commits(w, es[0]) && AddsOnce(es[0].op, k) then 1 else 0
  }

  function Consumptions(w: World, es: seq<Event>, k: string): nat
    decreases |es|
  {
    if es == [] then 0
    else Consumptions(Next(w, es[0]), es[1..], k) + if Commits(w, es[0]) && es[0].op == EConsume(k) then 1 else 0
  }

  predicate AddsOnce(op: Op, k: string) {
    op.EAdd? && op.grant.once && KeyOf(op.grant) == k
  }

  /** Unspent single-use authority for a key: one or none. */
  function Unspent(m: Mem, k: string): nat {
    if k in m.grants && m.grants[k].once then 1 else 0
  }

  lemma {:induction false} EffectKeeps(m: Mem, op: Op)
    requires WellFormed(m) && Possible(m, op)
    ensures WellFormed(Effect(m, op))
    ensures Clean(m) ==> Clean(Effect(m, op))
  {
    match op
    case EAdd(g) => ValidIsClean(g.identity); ValidIsClean(g.verb); ValidIsClean(g.scope);
    case ERecord(identity, verb, scope, now) => ValidIsClean(identity); ValidIsClean(verb); ValidIsClean(scope);
    case _ =>
  }

  /** Every step, write failures and restarts included, leaves a file that reopens to memory. */
  lemma {:induction false} NextKeeps(w: World, e: Event)
    requires Synced(w) && Fits(w, e)
    ensures Synced(Next(w, e))
    ensures Clean(w.mem) ==> Clean(Next(w, e).mem)
    ensures e == Restart ==> Next(w, e) == w
  {
    if Commits(w, e) {
      EffectKeeps(w.mem, e.op);
      ReopenYieldsMemory(e.written.value, Effect(w.mem, e.op));
    }
  }

  /** Over any run of operations, write failures and restarts, from any file: a restart would load
      exactly what memory holds, granted and pending stay disjoint, and entries stay NUL-free. */
  lemma {:induction false} RunKeeps(w: World, es: seq<Event>, w': World)
    requires Synced(w) && Reaches(w, es, w')
    ensures Opened(w'.file) == w'.mem && WellFormed(w'.mem) && w'.mem.grants.Keys !! w'.mem.pending.Keys
    ensures Clean(w.mem) ==> Clean(w'.mem)
    decreases |es|
  {
    if es != [] {
      NextKeeps(w, es[0]);
      RunKeeps(Next(w, es[0]), es[1..], w');
    }
  }

  lemma {:induction false} StepConserves(w: World, e: Event, k: string)
    requires Synced(w) && Fits(w, e)
    ensures (if Commits(w, e) && e.op == EConsume(k) then 1 else 0) + Unspent(Next(w, e).mem, k)
            <= (if Commits(w, e) && AddsOnce(e.op, k) then 1 else 0) + Unspent(w.mem, k)
  {
    NextKeeps(w, e);
  }

  /** Conservation, over any run of operations, write failures and restarts: what is consumed of a
      triple plus what is left unspent never exceeds what single-use grants put there plus what
      was unspent to begin with. */
  lemma {:induction false} SingleUseConserved(w: World, es: seq<Event>, w': World, k: string)
    requires Synced(w) && Reaches(w, es, w')
    ensures Consumptions(w, es, k) + Unspent(w'.mem, k) <= OnceAdds(w, es, k) + Unspent(w.mem, k)
    decreases |es|
  {
    if es != [] {
      NextKeeps(w, es[0]);
      StepConserves(w, es[0], k);
      SingleUseConserved(Next(w, es[0]), es[1..], w', k);
    }
  }

  // ---------------------------------------------------------------- live-session moves

  const MOVE := "move"

  /** Authority to receive one session, once. */
  method GrantMoveTarget(store: GrantStore, dest: string, session: string, approver: string, now: string, saved: bool)
    returns (ok: bool)
    requires store.Valid()
    modifies store
    ensures store.Valid()
    ensures Stepped(old(store.State()), EAdd(Grant(dest, MOVE, session, true, Trim(approver), now)), ok, store.State())
    ensures ok == (saved && Possible(old(store.Value()), EAdd(Grant(dest, MOVE, session, true, Trim(approver), now))))
  {
    ok := store.Add(dest, MOVE, session, true, approver, now, saved);
  }

  /** Commits a move by spending its grant; refused when there is none. */
  method ConsumeMoveGrant(store: GrantStore, dest: string, session: string, saved: bool) returns (committed: bool)
    requires store.Valid()
    modifies store
    ensures store.Valid()
    ensures Stepped(old(store.State()), EConsume(GrantKey(dest, MOVE, session)), committed, store.State())
    ensures var m := old(store.Value());
            Clean(m) && saved && Possible(m, EConsume(GrantKey(dest, MOVE, session))) ==> committed
  {
    ghost var m := store.Value();
    var spent := store.ConsumeOnceMatching(dest, MOVE, scope => scope == session, saved);
    committed := spent.Some?;
    ghost var k := GrantKey(dest, MOVE, session);
    if !committed && saved && k in m.grants && m.grants[k].once && Clean(m) {
      var g := m.grants[k];
      GrantKeyUnambiguous(g.identity, g.verb, g.scope, dest, MOVE, session);
      assert Candidate(m, dest, MOVE, scope => scope == session, k);
    }
  }

  /** Each move grant commits at most once: commits of a session to a destination never exceed the
      single-use grants written for that pair, over any run of operations, write failures and
      restarts that starts without one. */
  lemma {:induction false} MoveCommitsOnce(w: World, es: seq<Event>, w': World, dest: string, session: string)
    requires Synced(w) && Reaches(w, es, w') && GrantKey(dest, MOVE, session) !in w.mem.grants
    ensures Consumptions(w, es, GrantKey(dest, MOVE, session)) <= OnceAdds(w, es, GrantKey(dest, MOVE, session))
  {
    SingleUseConserved(w, es, w', GrantKey(dest, MOVE, session));
  }
}
