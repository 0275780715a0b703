/** Authorization codes, and refresh-token families with rotation and reuse detection
    (section 6 of RFC 6749, section 4.14.2 of RFC 9700). Each request is one step and storage does
    not fail. Codes, tokens and families are named by numbers drawn at random; a hash of a token
    is that token's name. */
module Tokens {
  import opened Common

  const CODE_TTL := 120
  const GRACE := 30

  /** Resource 0 is none. */
  datatype Code = Code(client: int, redirect: int, challenge: int, scope: int, resource: int, expiresAt: int)
  datatype Refresh = Refresh(client: int, family: nat, gen: nat, rotatedTo: Option<nat>, rotatedAt: int, expiresAt: int)
  datatype Access = Access(client: int, family: nat, expiresAt: int)

  datatype Store = Store(codes: map<nat, Code>, refresh: map<nat, Refresh>, access: map<nat, Access>)

  datatype Config = Config(accessTtl: int, refreshTtl: int)

  /** What a code redemption presents; `verified` is the PKCE check against the code's challenge,
      `approved` whether the client is still approved. */
  datatype CodeRequest = CodeRequest(code: nat, client: int, redirect: int, verified: bool, resource: int,
      approved: bool, now: int)

  /** What a refresh presents; the client id is optional. */
  datatype RefreshRequest = RefreshRequest(token: nat, client: Option<int>, approved: bool, now: int)

  /** The names drawn for a new token set. */
  datatype Names = Names(family: nat, access: nat, refresh: nat)

  // ---------------------------------------------------------------- the requests as functions

  function Mint(cfg: Config, s: Store, client: int, family: nat, gen: nat, names: Names, now: int): Store {
    s.(access := s.access[names.access := Access(client, family, now + cfg.accessTtl)],
       refresh := s.refresh[names.refresh := Refresh(client, family, gen, None, 0, now + cfg.refreshTtl)])
  }

  /** A code is spent by the first attempt to redeem it, good or bad. */
  predicate Redeems(s: Store, r: CodeRequest) {
    r.code in s.codes &&
    var c := s.codes[r.code];
    && r.now <= c.expiresAt && r.client == c.client && r.redirect == c.redirect && r.verified
    && (r.resource == 0 || c.resource == 0 || r.resource == c.resource) && r.approved
  }

  function FromCode(cfg: Config, s: Store, r: CodeRequest, names: Names): Store {
    var spent := s.(codes := s.codes - {r.code});
    if Redeems(s, r) then Mint(cfg, spent, r.client, names.family, 0, names, r.now) else spent
  }

  /** The token is known, presented by its client, and has not expired. */
  predicate Presentable(s: Store, r: RefreshRequest) {
    r.token in s.refresh && (r.client.Some? ==> r.client.value == s.refresh[r.token].client)
        && r.now <= s.refresh[r.token].expiresAt
  }

  /** A rotated token shown again beyond the replay grace. */
  predicate Reuse(s: Store, r: RefreshRequest) {
    Presentable(s, r) && s.refresh[r.token].rotatedTo.Some? &&
    !(s.refresh[r.token].rotatedAt != 0 && r.now - s.refresh[r.token].rotatedAt <= GRACE)
  }

  predicate Rotates(s: Store, r: RefreshRequest) {
    Presentable(s, r) && s.refresh[r.token].rotatedTo.None? && r.approved
  }

  function RevokeFamily(s: Store, family: nat): Store {
    s.(refresh := map t | t in s.refresh && s.refresh[t].family != family :: s.refresh[t],
       access := map t | t in s.access && s.access[t].family != family :: s.access[t])
  }

  function RevokeClient(s: Store, client: int): Store {
    s.(refresh := map t | t in s.refresh && s.refresh[t].client != client :: s.refresh[t],
       access := map t | t in s.access && s.access[t].client != client :: s.access[t])
  }

  function FromRefresh(cfg: Config, s: Store, r: RefreshRequest, names: Names): Store {
    if Reuse(s, r) then RevokeFamily(s, s.refresh[r.token].family)
    else if Rotates(s, r) then
      var rec := s.refresh[r.token];
      var minted := Mint(cfg, s, rec.client, rec.family, rec.gen + 1, names, r.now);
      minted.(refresh := minted.refresh[r.token := rec.(rotatedTo := Some(names.refresh), rotatedAt := r.now)])
    else s
  }

  // ---------------------------------------------------------------- the token endpoint

  class TokenServer {
    const cfg: Config
    var codes: map<nat, Code>
    var refresh: map<nat, Refresh>
    var access: map<nat, Access>

    ghost function Value(): Store
      reads this
    {
      Store(codes, refresh, access)
    }

    constructor (cfg: Config)
      ensures this.cfg == cfg && Value() == Store(map[], map[], map[])
    {
      this.cfg, codes, refresh, access := cfg, map[], map[], map[];
    }

    method IssueCode(code: nat, client: int, redirect: int, challenge: int, scope: int, resource: int, now: int)
      modifies this
      ensures Value() ==
              var c := Code(client, redirect, challenge, scope, resource, now + 120);
              old(Value()).(codes := old(codes)[code := c])
    {
      codes := codes[code := Code(client, redirect, challenge, scope, resource, now + CODE_TTL)];
    }

    method MintTokenSet(client: int, family: nat, gen: nat, names: Names, now: int)
      modifies this
      ensures Value() == Mint(cfg, old(Value()), client, family, gen, names, now)
    {
      access := access[names.access := Access(client, family, now + cfg.accessTtl)];
      refresh := refresh[names.refresh := Refresh(client, family, gen, None, 0, now + cfg.refreshTtl)];
    }

    method TokenFromCode(r: CodeRequest, names: Names) returns (issued: bool)
      modifies this
      ensures issued == Redeems(old(Value()), r)
      ensures Value() == FromCode(cfg, old(Value()), r, names)
    {
      if r.code !in codes {
        assert codes - {r.code} == codes;
        return false;
      }
      var rec := codes[r.code];
      codes := codes - {r.code};
      if r.now > rec.expiresAt || r.client != rec.client || r.redirect != rec.redirect || !r.verified { return false; }
      if r.resource != 0 && rec.resource != 0 && r.resource != rec.resource { return false; }
      if !r.approved { return false; }
      MintTokenSet(rec.client, names.family, 0, names, r.now);
      issued := true;
    }

    method TokenFromRefresh(r: RefreshRequest, names: Names) returns (issued: bool)
      modifies this
      ensures issued == Rotates(old(Value()), r)
      ensures Value() == FromRefresh(cfg, old(Value()), r, names)
    {
      if r.token !in refresh { return false; }
      var rec := refresh[r.token];
      if r.client.Some? && r.client.value != rec.client { return false; }
      if r.now > rec.expiresAt { return false; }
      if rec.rotatedTo.Some? {
        if rec.rotatedAt != 0 && r.now - rec.rotatedAt <= GRACE { return false; }
        DeleteFamily(rec.family);
        return false;
      }
      if !r.approved { return false; }
      MintTokenSet(rec.client, rec.family, rec.gen + 1, names, r.now);
      refresh := refresh[r.token := rec.(rotatedTo := Some(names.refresh), rotatedAt := r.now)];
      issued := true;
    }

    /** Deletes every token of a family, file by file. */
    method DeleteFamily(family: nat)
      modifies this
      ensures Value() == RevokeFamily(old(Value()), family)
    {
      var todo := refresh.Keys;
      while todo != {}
        invariant todo <= old(refresh).Keys && codes == old(codes) && access == old(access)
        invariant forall t :: t in refresh <==> t in old(refresh) && (t in todo || old(refresh)[t].family != family)
        invariant forall t :: t in refresh ==> refresh[t] == old(refresh)[t]
        decreases |todo|
      {
        var t :| t in todo;
        todo := todo - {t};
        if refresh[t].family == family { refresh := refresh - {t}; }
      }
      assert refresh == RevokeFamily(old(Value()), family).refresh;
      todo := access.Keys;
      while todo != {}
        invariant todo <= old(access).Keys && codes == old(codes)
                  && refresh == RevokeFamily(old(Value()), family).refresh
        invariant forall t :: t in access <==> t in old(access) && (t in todo || old(access)[t].family != family)
        invariant forall t :: t in access ==> access[t] == old(access)[t]
        decreases |todo|
      {
        var t :| t in todo;
        todo := todo - {t};
        if access[t].family == family { access := access - {t}; }
      }
      assert access == RevokeFamily(old(Value()), family).access;
    }
  }

  // ---------------------------------------------------------------- runs

  /** A family: its client and its refresh tokens, oldest first. */
  datatype Family = Family(client: int, tokens: seq<nat>)

  /** The store together with its history: the live families, the code each family came from, the
      families revoked, and every name ever drawn. */
  datatype Sys = Sys(store: Store, chains: map<nat, Family>, origin: map<nat, nat>, revoked: set<nat>, drawn: set<nat>)

  datatype Event =
    | Issue(code: nat, record: Code)
    | Redeem(request: CodeRequest, names: Names)
    | Renew(token: RefreshRequest, names: Names)
    | DropClient(client: int)

  function NamesOf(n: Names): set<nat> {
    {n.family, n.access, n.refresh}
  }

  /** Draws are new and different from each other. */
  predicate Fresh(s: Sys, e: Event) {
    match e
    case Issue(code, _) => code !in s.drawn
    case Redeem(_, n) => NamesOf(n) !! s.drawn && n.family != n.access && n.access != n.refresh && n.family != n.refresh
    case Renew(_, n) => NamesOf(n) !! s.drawn && n.family != n.access && n.access != n.refresh && n.family != n.refresh
    case DropClient(_) => true
  }

  function Dropped(s: Sys, families: set<nat>, store: Store): Sys {
    s.(store := store, chains := s.chains - families, revoked := s.revoked + families)
  }

  function Extended(f: Family, t: nat): Family {
    f.(tokens := f.tokens + [t])
  }

  function FamiliesOf(s: Store, client: int): set<nat> {
    set t | t in s.refresh && s.refresh[t].client == client :: s.refresh[t].family
  }

  function Next(cfg: Config, s: Sys, e: Event): Sys {
    match e
    case Issue(code, record) =>
      s.(store := s.store.(codes := s.store.codes[code := record]), drawn := s.drawn + {code})
    case Redeem(r, n) =>
      var store := FromCode(cfg, s.store, r, n);
      if Redeems(s.store, r)
      then Sys(store, s.chains[n.family := Family(r.client, [n.refresh])], s.origin[n.family := r.code], s.revoked,
          s.drawn + NamesOf(n))
      else s.(store := store)
    case Renew(r, n) =>
      var store := FromRefresh(cfg, s.store, r, n);
      if Reuse(s.store, r) then Dropped(s, {s.store.refresh[r.token].family}, store)
      else if Rotates(s.store, r) then
        var f := s.store.refresh[r.token].family;
        s.(store := store,
            chains := if f in s.chains then s.chains[f := Extended(s.chains[f], n.refresh)] else s.chains,
           drawn := s.drawn + NamesOf(n))
      else s
    case DropClient(client) => Dropped(s, FamiliesOf(s.store, client), RevokeClient(s.store, client))
  }

  // ---------------------------------------------------------------- what every step keeps

  /** Entry `i` of a family's chain is a stored token of that family and generation `i`, rotated to
      the next entry, or unrotated if it is the last. */
  ghost predicate Link(s: Store, f: nat, c: Family, i: nat)
    requires i < |c.tokens|
  {
    var t := c.tokens[i];
    && t in s.refresh && s.refresh[t].family == f && s.refresh[t].gen == i && s.refresh[t].client == c.client
    && s.refresh[t].rotatedTo == if i + 1 < |c.tokens| then Some(c.tokens[i + 1]) else None
  }

  ghost predicate ChainOk(s: Store, f: nat, c: Family) {
    c.tokens != [] && forall i: nat :: i < |c.tokens| ==> Link(s, f, c, i)
  }

  /** A stored refresh token is in its family's chain, where its generation says. */
  ghost predicate Placed(chains: map<nat, Family>, t: nat, r: Refresh) {
    r.family in chains && r.gen < |chains[r.family].tokens| && chains[r.family].tokens[r.gen] == t
  }

  ghost predicate AccessOk(chains: map<nat, Family>, a: Access) {
    a.family in chains && a.client == chains[a.family].client
  }

  ghost predicate NamesOk(s: Sys) {
    && (forall t :: t in s.store.refresh ==> t in s.drawn)
    && (forall t :: t in s.store.access ==> t in s.drawn)
    && (forall c :: c in s.store.codes ==> c in s.drawn && forall f :: f in s.origin ==> s.origin[f] != c)
    && (forall f :: f in s.origin ==> f in s.drawn && s.origin[f] in s.drawn)
    && (forall f :: f in s.chains ==> f in s.origin)
    && (forall f :: f in s.revoked ==> f in s.origin && f !in s.chains)
    && (forall f, g :: f in s.origin && g in s.origin && s.origin[f] == s.origin[g] ==> f == g)
  }

  ghost predicate Ok(s: Sys) {
    && NamesOk(s)
    && (forall f :: f in s.chains ==> ChainOk(s.store, f, s.chains[f]))
    && (forall t :: t in s.store.refresh ==> Placed(s.chains, t, s.store.refresh[t]))
    && (forall t :: t in s.store.access ==> AccessOk(s.chains, s.store.access[t]))
  }

  lemma {:induction false} IssueKeeps(cfg: Config, s: Sys, code: nat, record: Code)
    requires Ok(s) && code !in s.drawn
    ensures Ok(Next(cfg, s, Issue(code, record)))
  {
    var s' := Next(cfg, s, Issue(code, record));
    forall f | f in s'.chains ensures ChainOk(s'.store, f, s'.chains[f]) {
      SameLinks(s.store, s'.store, f, s.chains[f]);
    }
  }

  /** A chain is judged by the tokens of its own family only. */
  lemma {:induction false} SameLinks(s: Store, s': Store, f: nat, c: Family)
    requires ChainOk(s, f, c)
    requires forall t :: t in s.refresh && s.refresh[t].family == f ==> t in s'.refresh && s'.refresh[t] == s.refresh[t]
    ensures ChainOk(s', f, c)
  {
    forall i: nat | i < |c.tokens| ensures Link(s', f, c, i) { assert Link(s, f, c, i); }
  }

  lemma {:induction false} RedeemKeeps(cfg: Config, s: Sys, r: CodeRequest, n: Names)
    requires Ok(s) && Fresh(s, Redeem(r, n))
    ensures Ok(Next(cfg, s, Redeem(r, n)))
  {
    var s' := Next(cfg, s, Redeem(r, n));
    if Redeems(s.store, r) {
      assert ChainOk(s'.store, n.family, s'.chains[n.family]);
      forall f | f in s'.chains && f != n.family ensures ChainOk(s'.store, f, s'.chains[f]) {
        SameLinks(s.store, s'.store, f, s.chains[f]);
      }
      forall t | t in s'.store.refresh ensures Placed(s'.chains, t, s'.store.refresh[t]) {
        if t != n.refresh { assert Placed(s.chains, t, s.store.refresh[t]); }
      }
      forall t | t in s'.store.access ensures AccessOk(s'.chains, s'.store.access[t]) {
        if t != n.access { assert AccessOk(s.chains, s.store.access[t]); }
      }
      RedeemNames(cfg, s, r, n);
    } else {
      forall f | f in s'.chains ensures ChainOk(s'.store, f, s'.chains[f]) {
        SameLinks(s.store, s'.store, f, s.chains[f]);
      }
    }
  }

  lemma {:induction false} RedeemNames(cfg: Config, s: Sys, r: CodeRequest, n: Names)
    requires NamesOk(s) && Fresh(s, Redeem(r, n)) && Redeems(s.store, r)
    ensures NamesOk(Next(cfg, s, Redeem(r, n)))
  {
    assert n.family in NamesOf(n) && n.access in NamesOf(n) && n.refresh in NamesOf(n);
  }

  lemma {:induction false} RotateLinks(cfg: Config, s: Sys, r: RefreshRequest, n: Names)
    requires Ok(s) && Fresh(s, Renew(r, n)) && Rotates(s.store, r)
    ensures var f := s.store.refresh[r.token].family;
            f in s.chains && ChainOk(FromRefresh(cfg, s.store, r, n), f, Extended(s.chains[f], n.refresh))
  {
    var rec, s' := s.store.refresh[r.token], FromRefresh(cfg, s.store, r, n);
    assert n.refresh in NamesOf(n);
    var f := rec.family;
    assert Placed(s.chains, r.token, rec);
    var c, c' := s.chains[f], Extended(s.chains[f], n.refresh);
    assert ChainOk(s.store, f, c);
    var last := |c.tokens| - 1;
    assert Link(s.store, f, c, rec.gen);
    assert rec.gen == last;
    forall i: nat | i < |c'.tokens| ensures Link(s', f, c', i) {
      if i <= last {
        assert Link(s.store, f, c, i);
        assert c.tokens[i] == r.token ==> i == last;
      }
    }
  }

  lemma {:induction false} RotateKeeps(cfg: Config, s: Sys, r: RefreshRequest, n: Names)
    requires Ok(s) && Fresh(s, Renew(r, n)) && Rotates(s.store, r)
    ensures Ok(Next(cfg, s, Renew(r, n)))
  {
    var s' := Next(cfg, s, Renew(r, n));
    var rec := s.store.refresh[r.token];
    assert n.access in NamesOf(n) && n.refresh in NamesOf(n);
    RotateLinks(cfg, s, r, n);
    assert Placed(s.chains, r.token, rec);
    assert Link(s.store, rec.family, s.chains[rec.family], rec.gen);
    forall f | f in s'.chains && f != rec.family ensures ChainOk(s'.store, f, s'.chains[f]) {
      SameLinks(s.store, s'.store, f, s.chains[f]);
    }
    forall t | t in s'.store.refresh ensures Placed(s'.chains, t, s'.store.refresh[t]) {
      if t != n.refresh { assert Placed(s.chains, t, s.store.refresh[t]); }
    }
    forall t | t in s'.store.access ensures AccessOk(s'.chains, s'.store.access[t]) {
      if t != n.access { assert AccessOk(s.chains, s.store.access[t]); }
    }
  }

  /** Whole families go together: of a family, of a client. */
  lemma {:induction false} DropKeeps(s: Sys, families: set<nat>, store: Store)
    requires Ok(s) && families <= s.chains.Keys && store.codes == s.store.codes
    requires forall t :: t in store.refresh <==> t in s.store.refresh && s.store.refresh[t].family !in families
    requires forall t :: t in store.refresh ==> store.refresh[t] == s.store.refresh[t]
    requires forall t :: t in store.access <==> t in s.store.access && s.store.access[t].family !in families
    requires forall t :: t in store.access ==> store.access[t] == s.store.access[t]
    ensures Ok(Dropped(s, families, store))
  {
    var s' := Dropped(s, families, store);
    forall f | f in s'.chains ensures ChainOk(s'.store, f, s'.chains[f]) {
      SameLinks(s.store, store, f, s.chains[f]);
    }
    forall t | t in s'.store.refresh ensures Placed(s'.chains, t, s'.store.refresh[t]) {
      assert Placed(s.chains, t, s.store.refresh[t]);
    }
    forall t | t in s'.store.access ensures AccessOk(s'.chains, s'.store.access[t]) {
      assert AccessOk(s.chains, s.store.access[t]);
    }
  }

  lemma {:induction false} ReuseKeeps(cfg: Config, s: Sys, r: RefreshRequest, n: Names)
    requires Ok(s) && Reuse(s.store, r)
    ensures Ok(Next(cfg, s, Renew(r, n)))
  {
    var f := s.store.refresh[r.token].family;
    assert Placed(s.chains, r.token, s.store.refresh[r.token]);
    DropKeeps(s, {f}, RevokeFamily(s.store, f));
  }

  lemma {:induction false} ClientKeeps(cfg: Config, s: Sys, client: int)
    requires Ok(s)
    ensures Ok(Next(cfg, s, DropClient(client)))
  {
    var families := FamiliesOf(s.store, client);
    forall t | t in s.store.refresh
      ensures s.store.refresh[t].family in s.chains
              && s.store.refresh[t].client == s.chains[s.store.refresh[t].family].client
    {
      var r := s.store.refresh[t];
      assert Placed(s.chains, t, r);
      assert Link(s.store, r.family, s.chains[r.family], r.gen);
    }
    forall f | f in s.chains ensures f in families <==> s.chains[f].client == client {
      var t := s.chains[f].tokens[0];
      assert Link(s.store, f, s.chains[f], 0);
    }
    DropKeeps(s, families, RevokeClient(s.store, client));
  }

  lemma {:induction false} NextKeeps(cfg: Config, s: Sys, e: Event)
    requires Ok(s) && Fresh(s, e)
    ensures Ok(Next(cfg, s, e))
  {
    match e
    case Issue(code, record) => IssueKeeps(cfg, s, code, record);
    case Redeem(r, n) => RedeemKeeps(cfg, s, r, n);
    case Renew(r, n) =>
      if Reuse(s.store, r) {
        ReuseKeeps(cfg, s, r, n);
      } else if Rotates(s.store, r) {
        RotateKeeps(cfg, s, r, n);
      }
    case DropClient(client) => ClientKeeps(cfg, s, client);
  }

  // ---------------------------------------------------------------- whole runs

  ghost predicate Reaches(cfg: Config, s: Sys, es: seq<Event>, t: Sys)
    decreases |es|
  {
    if es == [] then s == t else Fresh(s, es[0]) && Reaches(cfg, Next(cfg, s, es[0]), es[1..], t)
  }

  const START := Sys(Store(map[], map[], map[]), map[], map[], {}, {})

  lemma {:induction false} RunKeeps(cfg: Config, s: Sys, es: seq<Event>, t: Sys)
    requires Ok(s) && Reaches(cfg, s, es, t)
    ensures Ok(t) && s.revoked <= t.revoked
    ensures forall f :: f in s.origin ==> f in t.origin && t.origin[f] == s.origin[f]
    decreases |es|
  {
    if es != [] {
      NextKeeps(cfg, s, es[0]);
      HistoryGrows(cfg, s, es[0]);
      RunKeeps(cfg, Next(cfg, s, es[0]), es[1..], t);
    }
  }

  lemma {:induction false} HistoryGrows(cfg: Config, s: Sys, e: Event)
    requires Ok(s) && Fresh(s, e)
    ensures s.revoked <= Next(cfg, s, e).revoked
    ensures forall f :: f in s.origin ==> f in Next(cfg, s, e).origin && Next(cfg, s, e).origin[f] == s.origin[f]
  {
    if e.Redeem? { assert e.names.family in NamesOf(e.names); }
  }

  /** The unrotated tokens of a family. */
  function Unrotated(s: Store, f: nat): set<nat> {
    set t | t in s.refresh && s.refresh[t].family == f && s.refresh[t].rotatedTo.None?
  }

  /** Over every run: a code starts at most one family; a family that is not revoked is a single
      rotation chain with consecutive generations, each token pointing at the next, and has
      exactly one unrotated token, the last; a revoked family has no token at all. */
  lemma {:induction false} FamilySafety(cfg: Config, es: seq<Event>, t: Sys)
    requires Reaches(cfg, START, es, t)
    ensures forall f, g :: f in t.origin && g in t.origin && t.origin[f] == t.origin[g] ==> f == g
    ensures forall f :: f in t.chains ==>
              ChainOk(t.store, f, t.chains[f])
                  && Unrotated(t.store, f) == {t.chains[f].tokens[|t.chains[f].tokens| - 1]}
    ensures forall x :: x in t.store.refresh ==>
            Placed(t.chains, x, t.store.refresh[x]) && t.store.refresh[x].family !in t.revoked
    ensures forall x :: x in t.store.access ==> t.store.access[x].family !in t.revoked
  {
    RunKeeps(cfg, START, es, t);
    forall f | f in t.chains ensures Unrotated(t.store, f) == {t.chains[f].tokens[|t.chains[f].tokens| - 1]} {
      OneUnrotated(t, f);
    }
    forall x | x in t.store.refresh ensures Placed(t.chains, x, t.store.refresh[x]) { }
    forall x | x in t.store.access ensures AccessOk(t.chains, t.store.access[x]) { }
  }

  lemma {:induction false} OneUnrotated(s: Sys, f: nat)
    requires Ok(s) && f in s.chains
    ensures s.chains[f].tokens != [] && Unrotated(s.store, f) == {s.chains[f].tokens[|s.chains[f].tokens| - 1]}
  {
    var c := s.chains[f];
    assert ChainOk(s.store, f, c);
    var last := |c.tokens| - 1;
    assert Link(s.store, f, c, last);
    forall t | t in Unrotated(s.store, f) ensures t == c.tokens[last] {
      var r := s.store.refresh[t];
      assert Placed(s.chains, t, r);
      assert Link(s.store, f, c, r.gen);
    }
  }

  /** Theft detection: a rotated token presented again, by its client, before it expires and beyond
      the replay grace, ends its family. No token of it exists then or is ever minted again. */
  lemma {:induction false} ReuseEndsFamily(cfg: Config, before: seq<Event>, s: Sys, r: RefreshRequest, n: Names,
                                           after: seq<Event>, t: Sys)
    requires Reaches(cfg, START, before, s) && Reuse(s.store, r)
    requires Fresh(s, Renew(r, n)) && Reaches(cfg, Next(cfg, s, Renew(r, n)), after, t)
    ensures var f := s.store.refresh[r.token].family;
            && (forall x :: x in t.store.refresh ==> t.store.refresh[x].family != f)
            && (forall x :: x in t.store.access ==> t.store.access[x].family != f)
  {
    RunKeeps(cfg, START, before, s);
    NextKeeps(cfg, s, Renew(r, n));
    RunKeeps(cfg, Next(cfg, s, Renew(r, n)), after, t);
    var f := s.store.refresh[r.token].family;
    assert f in t.revoked;
    forall x | x in t.store.refresh ensures t.store.refresh[x].family != f {
      assert Placed(t.chains, x, t.store.refresh[x]);
    }
    forall x | x in t.store.access ensures t.store.access[x].family != f {
      assert AccessOk(t.chains, t.store.access[x]);
    }
  }

  /** The refresh and access tokens the store holds of a family. */
  function RefreshOf(s: Store, f: nat): set<nat> {
    set t | t in s.refresh && s.refresh[t].family == f
  }

  function AccessOf(s: Store, f: nat): set<nat> {
    set t | t in s.access && s.access[t].family == f
  }

  lemma {:induction false} RevokedTokens(s: Store, f: nat, g: nat)
    ensures RefreshOf(RevokeFamily(s, f), g) == if g == f then {} else RefreshOf(s, g)
    ensures AccessOf(RevokeFamily(s, f), g) == if g == f then {} else AccessOf(s, g)
  {
  }

  lemma {:induction false} RotatedTokens(cfg: Config, s: Store, r: RefreshRequest, n: Names, g: nat)
    requires Rotates(s, r) && n.refresh !in s.refresh && n.access !in s.access
    ensures var s', mine := FromRefresh(cfg, s, r, n), g == s.refresh[r.token].family;
            && RefreshOf(s', g) == RefreshOf(s, g) + (if mine then {n.refresh} else {})
            && AccessOf(s', g) == AccessOf(s, g) + (if mine then {n.access} else {})
  {
    var s', rec := FromRefresh(cfg, s, r, n), s.refresh[r.token];
    assert s'.refresh.Keys == s.refresh.Keys + {n.refresh} && s'.access.Keys == s.access.Keys + {n.access};
    forall t | t in s.refresh ensures s'.refresh[t].family == s.refresh[t].family { }
    assert s'.refresh[n.refresh].family == s'.access[n.access].family == rec.family;
  }

  /** A refresh never changes a family by halves: it adds exactly one refresh and one access token
      to the family, leaves it alone, or deletes every token of it, and it deletes them exactly on
      reuse. No other family's tokens change. */
  lemma {:induction false} RefreshOutcome(cfg: Config, s: Store, r: RefreshRequest, n: Names)
    requires r.token in s.refresh && n.refresh !in s.refresh && n.access !in s.access
    ensures var f, s' := s.refresh[r.token].family, FromRefresh(cfg, s, r, n);
            && (RefreshOf(s', f) + AccessOf(s', f) == {} <==> Reuse(s, r))
            && (!Reuse(s, r) ==>
                  && RefreshOf(s', f) == RefreshOf(s, f) + (if Rotates(s, r) then {n.refresh} else {})
                  && AccessOf(s', f) == AccessOf(s, f) + (if Rotates(s, r) then {n.access} else {}))
            && forall g :: g != f ==> RefreshOf(s', g) == RefreshOf(s, g) && AccessOf(s', g) == AccessOf(s, g)
  {
    var f, s' := s.refresh[r.token].family, FromRefresh(cfg, s, r, n);
    assert r.token in RefreshOf(s, f);
    forall g
      ensures RefreshOf(s', g) ==
              if g != f then RefreshOf(s, g)
              else if Reuse(s, r) then {}
              else RefreshOf(s, g) + (if Rotates(s, r) then {n.refresh} else {})
      ensures AccessOf(s', g) ==
              if g != f then AccessOf(s, g)
              else if Reuse(s, r) then {}
              else AccessOf(s, g) + (if Rotates(s, r) then {n.access} else {})
    {
      if Reuse(s, r) { RevokedTokens(s, f, g); } else if Rotates(s, r) { RotatedTokens(cfg, s, r, n, g); }
    }
  }

  /** A rotated record is never written again: it is deleted with its family or stays as it is. */
  lemma {:induction false} RotatedStep(cfg: Config, s: Sys, e: Event, x: nat)
    requires Ok(s) && Fresh(s, e) && x in s.store.refresh && s.store.refresh[x].rotatedTo.Some?
    ensures x in Next(cfg, s, e).store.refresh ==> Next(cfg, s, e).store.refresh[x] == s.store.refresh[x]
    ensures x !in Next(cfg, s, e).store.refresh ==> s.store.refresh[x].family in Next(cfg, s, e).revoked
  {
    if e.Redeem? || e.Renew? { assert e.names.refresh in NamesOf(e.names); }
    if e.DropClient? && x !in Next(cfg, s, e).store.refresh {
      assert s.store.refresh[x].family in FamiliesOf(s.store, e.client);
    }
  }

  lemma {:induction false} RotatedStays(cfg: Config, s: Sys, es: seq<Event>, t: Sys, x: nat)
    requires Ok(s) && Reaches(cfg, s, es, t) && x in s.store.refresh && s.store.refresh[x].rotatedTo.Some?
    requires x in t.store.refresh
    ensures t.store.refresh[x] == s.store.refresh[x]
    decreases |es|
  {
    if es != [] {
      var u := Next(cfg, s, es[0]);
      NextKeeps(cfg, s, es[0]);
      RotatedStep(cfg, s, es[0], x);
      if x !in u.store.refresh {
        assert x in u.drawn;
        GoneForGood(cfg, u, es[1..], t, x);
      }
      RotatedStays(cfg, u, es[1..], t, x);
    }
  }

  /** A token name that has been drawn and deleted does not come back. */
  lemma {:induction false} GoneStep(cfg: Config, s: Sys, e: Event, x: nat)
    requires Fresh(s, e) && x in s.drawn && x !in s.store.refresh
    ensures x in Next(cfg, s, e).drawn && x !in Next(cfg, s, e).store.refresh
  {
    if e.Redeem? || e.Renew? { assert e.names.refresh in NamesOf(e.names); }
  }

  lemma {:induction false} GoneForGood(cfg: Config, s: Sys, es: seq<Event>, t: Sys, x: nat)
    requires Reaches(cfg, s, es, t) && x in s.drawn && x !in s.store.refresh
    ensures x !in t.store.refresh
    decreases |es|
  {
    if es != [] {
      GoneStep(cfg, s, es[0], x);
      GoneForGood(cfg, Next(cfg, s, es[0]), es[1..], t, x);
    }
  }

  /** One presentation of a token that was rotated at `a`. */
  lemma {:induction false} ShownOnce(cfg: Config, s: Store, r: RefreshRequest, m: Names, a: int)
    requires r.token in s.refresh && s.refresh[r.token].rotatedTo.Some? && s.refresh[r.token].rotatedAt == a != 0
    requires r.client == None || r.client == Some(s.refresh[r.token].client)
    requires r.now <= s.refresh[r.token].expiresAt
    ensures var f, after := s.refresh[r.token].family, FromRefresh(cfg, s, r, m);
            if r.now - a <= 30 then after == s else RefreshOf(after, f) == {} && AccessOf(after, f) == {}
  {
    RevokedTokens(s, s.refresh[r.token].family, s.refresh[r.token].family);
  }

  /** What a rotation writes on the token it rotates. */
  lemma {:induction false} RotationWrites(cfg: Config, s: Sys, r: RefreshRequest, n: Names)
    requires Ok(s) && Fresh(s, Renew(r, n)) && r.token in s.store.refresh
    requires s.store.refresh[r.token].rotatedTo == None && r.approved && r.now <= s.store.refresh[r.token].expiresAt
    requires r.client == None || r.client == Some(s.store.refresh[r.token].client)
    ensures var t := Next(cfg, s, Renew(r, n));
            && r.token in t.store.refresh
            && t.store.refresh[r.token] == s.store.refresh[r.token].(rotatedTo := Some(n.refresh), rotatedAt := r.now)
  {
    assert n.refresh in NamesOf(n) && r.token in s.drawn;
  }

  /** Theft detection by the clock, in every run: a refresh token that was rotated at `a` and is shown
      again at `b`, by its client and before it expires, is refused and changes nothing if no more
      than 30 seconds have passed; after that not one refresh or access token of its family is
      left. */
  lemma {:induction false} ShownAgain(cfg: Config, before: seq<Event>, s: Sys, first: RefreshRequest, n: Names,
                                      between: seq<Event>, u: Sys, again: RefreshRequest, m: Names)
    requires Reaches(cfg, START, before, s) && Fresh(s, Renew(first, n))
    requires first.token in s.store.refresh && s.store.refresh[first.token].rotatedTo == None
    requires first.approved && first.now <= s.store.refresh[first.token].expiresAt && first.now != 0
    requires first.client == None || first.client == Some(s.store.refresh[first.token].client)
    requires Reaches(cfg, Next(cfg, s, Renew(first, n)), between, u)
    requires again.token == first.token && first.token in u.store.refresh
    requires again.client == None || again.client == Some(s.store.refresh[first.token].client)
    requires again.now <= s.store.refresh[first.token].expiresAt
    ensures var f, after := s.store.refresh[first.token].family, FromRefresh(cfg, u.store, again, m);
            if again.now - first.now <= 30 then after == u.store
            else RefreshOf(after, f) == {} && AccessOf(after, f) == {}
  {
    RunKeeps(cfg, START, before, s);
    NextKeeps(cfg, s, Renew(first, n));
    RotationWrites(cfg, s, first, n);
    RotatedStays(cfg, Next(cfg, s, Renew(first, n)), between, u, first.token);
    ShownOnce(cfg, u.store, again, m, first.now);
  }

  /** A refresh issues a new token set if and only if the token is known, unrotated and unexpired, was
      presented by its client if by anyone, and the client is still approved. */
  lemma {:induction false} RefreshIssuesIff(cfg: Config, s: Store, r: RefreshRequest, n: Names)
    requires n.refresh !in s.refresh && n.access !in s.access
    ensures var s' := FromRefresh(cfg, s, r, n);
            && (n.refresh in s'.refresh <==> n.access in s'.access)
            && (n.refresh in s'.refresh <==>
                  && r.token in s.refresh && s.refresh[r.token].rotatedTo == None
                  && r.now <= s.refresh[r.token].expiresAt
                  && (r.client == None || r.client == Some(s.refresh[r.token].client)) && r.approved)
            && (n.refresh in s'.refresh ==>
                  var rec := s.refresh[r.token];
                  && s'.refresh[n.refresh] ==
                     Refresh(rec.client, rec.family, rec.gen + 1, None, 0, r.now + cfg.refreshTtl)
                  && s'.access[n.access] == Access(rec.client, rec.family, r.now + cfg.accessTtl)
                  && s'.refresh[r.token] == rec.(rotatedTo := Some(n.refresh), rotatedAt := r.now))
  {
  }

  lemma {:induction false} CodeStep(cfg: Config, s: Sys, e: Event, code: nat)
    requires Fresh(s, e) && code in s.drawn
    ensures code in Next(cfg, s, e).drawn
    ensures code !in s.store.codes ==> code !in Next(cfg, s, e).store.codes
    ensures code in s.store.codes && !(e.Redeem? && e.request.code == code) ==>
              code in Next(cfg, s, e).store.codes && Next(cfg, s, e).store.codes[code] == s.store.codes[code]
  {
  }

  /** A code that has not been presented is still stored as it was issued. */
  lemma {:induction false} CodeStays(cfg: Config, s: Sys, es: seq<Event>, t: Sys, code: nat)
    requires Reaches(cfg, s, es, t) && code in s.drawn && code in s.store.codes
    requires forall i :: 0 <= i < |es| && es[i].Redeem? ==> es[i].request.code != code
    ensures code in t.store.codes && t.store.codes[code] == s.store.codes[code]
    decreases |es|
  {
    if es != [] {
      CodeStep(cfg, s, es[0], code);
      assert forall i :: 0 <= i < |es[1..]| ==> es[1..][i] == es[i + 1];
      CodeStays(cfg, Next(cfg, s, es[0]), es[1..], t, code);
    }
  }

  lemma {:induction false} SpentForGood(cfg: Config, s: Sys, es: seq<Event>, t: Sys, code: nat)
    requires Reaches(cfg, s, es, t) && code in s.drawn && code !in s.store.codes
    ensures code !in t.store.codes
    decreases |es|
  {
    if es != [] {
      CodeStep(cfg, s, es[0], code);
      SpentForGood(cfg, Next(cfg, s, es[0]), es[1..], t, code);
    }
  }

  /** One redemption of a stored code. */
  lemma {:induction false} RedeemsIff(cfg: Config, s: Store, r: CodeRequest, n: Names, rec: Code)
    requires r.code in s.codes && s.codes[r.code] == rec && n.refresh !in s.refresh && n.access !in s.access
    ensures var after := FromCode(cfg, s, r, n);
            && r.code !in after.codes
            && (n.refresh in after.refresh <==> n.access in after.access)
            && (n.refresh in after.refresh <==>
                  && r.now <= rec.expiresAt && r.client == rec.client && r.redirect == rec.redirect && r.verified
                  && (r.resource == 0 || rec.resource == 0 || r.resource == rec.resource) && r.approved)
            && (n.refresh in after.refresh ==>
                  && after.refresh[n.refresh] == Refresh(rec.client, n.family, 0, None, 0, r.now + cfg.refreshTtl)
                  && after.access[n.access] == Access(rec.client, n.family, r.now + cfg.accessTtl))
  {
  }

  /** What redeeming a code is worth, in every run: the first attempt after its issue mints a token set
      for its client if and only if it comes in time, from that client, with that redirect, a good
      verifier, a resource that does not contradict the code's, and an approved client. */
  lemma {:induction false} FirstRedemption(cfg: Config, before: seq<Event>, s: Sys, code: nat, rec: Code,
                                           between: seq<Event>, u: Sys, r: CodeRequest, n: Names)
    requires Reaches(cfg, START, before, s) && Fresh(s, Issue(code, rec))
    requires Reaches(cfg, Next(cfg, s, Issue(code, rec)), between, u) && Fresh(u, Redeem(r, n)) && r.code == code
    requires forall i :: 0 <= i < |between| && between[i].Redeem? ==> between[i].request.code != code
    ensures var after := FromCode(cfg, u.store, r, n);
            && code !in after.codes
            && (n.refresh in after.refresh <==>
                  && r.now <= rec.expiresAt && r.client == rec.client && r.redirect == rec.redirect && r.verified
                  && (r.resource == 0 || rec.resource == 0 || r.resource == rec.resource) && r.approved)
            && (n.refresh in after.refresh ==> after.refresh[n.refresh].client == rec.client)
  {
    RunKeeps(cfg, START, before, s);
    var t := Next(cfg, s, Issue(code, rec));
    NextKeeps(cfg, s, Issue(code, rec));
    CodeStays(cfg, t, between, u, code);
    RunKeeps(cfg, t, between, u);
    FreshNames(u, r, n);
    RedeemsIff(cfg, u.store, r, n, rec);
  }

  lemma {:induction false} FreshNames(s: Sys, r: CodeRequest, n: Names)
    requires Ok(s) && Fresh(s, Redeem(r, n))
    ensures n.refresh !in s.store.refresh && n.access !in s.store.access
  {
    assert n.access in NamesOf(n) && n.refresh in NamesOf(n);
  }

  /** Good or bad, the first attempt is the only one that counts: no later attempt on the code changes
      anything. */
  lemma {:induction false} SecondRedemption(cfg: Config, before: seq<Event>, s: Sys, r: CodeRequest, n: Names,
                                            between: seq<Event>, u: Sys, again: CodeRequest, m: Names)
    requires Reaches(cfg, START, before, s) && Fresh(s, Redeem(r, n)) && r.code in s.store.codes
    requires Reaches(cfg, Next(cfg, s, Redeem(r, n)), between, u) && again.code == r.code
    ensures FromCode(cfg, u.store, again, m) == u.store
  {
    RunKeeps(cfg, START, before, s);
    NextKeeps(cfg, s, Redeem(r, n));
    SpentForGood(cfg, Next(cfg, s, Redeem(r, n)), between, u, r.code);
    assert u.store.codes - {r.code} == u.store.codes;
  }

  /** What the first code, redeemed and rotated once, leaves: token 4 rotated to token 7. */
  function OnceRotated(cfg: Config, issued: int, rotated: int): Sys {
    Sys(Store(map[],
              map[4 := Refresh(1, 2, 0, Some(7), rotated, issued + cfg.refreshTtl),
                  7 := Refresh(1, 2, 1, None, 0, rotated + cfg.refreshTtl)],
              map[3 := Access(1, 2, issued + cfg.accessTtl), 6 := Access(1, 2, rotated + cfg.accessTtl)]),
        map[2 := Family(1, [4, 7])], map[2 := 1], {}, {1, 2, 3, 4, 5, 6, 7})
  }

  const CODE := Code(1, 0, 0, 0, 0, 0)

  function RotationRun(issued: int, rotated: int): seq<Event> {
    [Issue(1, CODE.(expiresAt := issued)), Redeem(CodeRequest(1, 1, 0, true, 0, true, issued), Names(2, 3, 4)),
     Renew(RefreshRequest(4, None, true, rotated), Names(5, 6, 7))]
  }

  lemma {:induction false} RotationReached(cfg: Config, issued: int, rotated: int)
    requires rotated <= issued + cfg.refreshTtl
    ensures Reaches(cfg, START, RotationRun(issued, rotated), OnceRotated(cfg, issued, rotated))
  {
    var es := RotationRun(issued, rotated);
    var one := Next(cfg, START, es[0]);
    var two := Next(cfg, one, es[1]);
    assert Redeems(one.store, es[1].request);
    assert two.store.codes == map[];
    assert two.chains == map[2 := Family(1, [4])];
    assert two.store.refresh == map[4 := Refresh(1, 2, 0, None, 0, issued + cfg.refreshTtl)];
    assert Rotates(two.store, es[2].token);
    var three := Next(cfg, two, es[2]);
    var want := OnceRotated(cfg, issued, rotated);
    assert three.store.refresh == want.store.refresh && three.store.access == want.store.access
        && three.store.codes == want.store.codes;
    assert [4] + [7] == [4, 7];
    assert three.chains == want.chains && three.origin == want.origin && three.drawn == want.drawn
        && three.revoked == want.revoked;
    assert Reaches(cfg, three, es[1..][1..][1..], three);
    assert es[1..][1..][0] == es[2] && Fresh(two, es[2]);
    assert Reaches(cfg, two, es[1..][1..], three);
    assert Reaches(cfg, one, es[1..], three);
  }

  /** The gap: a rotated token shown again beyond the grace, but after its own expiry, ends nothing.
      The run is reached for every configuration with time to rotate; the family's current token
      is still good afterwards. */
  lemma {:induction false} ExpiredReuseSpares(cfg: Config, issued: int, rotated: int, shown: int, n: Names)
    requires rotated <= issued + cfg.refreshTtl < shown <= rotated + cfg.refreshTtl && shown - rotated > GRACE
    ensures var s := OnceRotated(cfg, issued, rotated);
            var r := RefreshRequest(4, None, true, shown);
            && Reaches(cfg, START, RotationRun(issued, rotated), s)
            && s.store.refresh[4].rotatedTo == Some(7) && !Reuse(s.store, r)
            && FromRefresh(cfg, s.store, r, n) == s.store
            && Rotates(s.store, RefreshRequest(7, None, true, shown))
  {
    RotationReached(cfg, issued, rotated);
  }
}
