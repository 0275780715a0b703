/** Narrowing a requested scope to an org's grant (the `authorization_details` of section 2 of
    RFC 9396), and what the minted capability then covers. */
module Exchange {
  import opened Glob
  import opened GlobMeaning

  /** One request entry; the type tag is checked before these fields are read. */
  datatype Detail = Detail(actions: seq<string>, locations: seq<string>, datatypes: seq<string>)

  /** A corpus entry that is meant to match no corpus. */
  const DENY_ALL := "\0-federation-no-corpus"

  /** How a glob entry covers a name, in a grant at the boundary and in a capability alike. */
  predicate Covers(entry: string, name: string) {
    entry == "*" || entry == name || Match(entry, name)
  }

  predicate AnyCovers(entries: seq<string>, name: string) {
    exists i :: 0 <= i < |entries| && Covers(entries[i], name)
  }

  // ---------------------------------------------------------------- intersection

  predicate Admits(granted: string, req: string) {
    granted == "*" || granted == req || (!Wild(req) && Match(granted, req))
  }

  predicate Kept(req: string, granted: seq<string>) {
    req != "" && exists i :: 0 <= i < |granted| && Admits(granted[i], req)
  }

  /** The kept requests in order of first occurrence. */
  function Intersection(requested: seq<string>, granted: seq<string>): seq<string> {
    if requested == [] then []
    else
      var n := |requested| - 1;
      var front := Intersection(requested[..n], granted);
      if Kept(requested[n], granted) && requested[n] !in front then front + [requested[n]] else front
  }

  lemma {:induction false} IntersectionExact(requested: seq<string>, granted: seq<string>)
    ensures forall r :: r in Intersection(requested, granted) <==> r in requested && Kept(r, granted)
    ensures "" !in Intersection(requested, granted)
    ensures forall i, j :: 0 <= i < j < |Intersection(requested, granted)| ==>
                           Intersection(requested, granted)[i] != Intersection(requested, granted)[j]
    decreases |requested|
  {
    if requested != [] {
      var n := |requested| - 1;
      IntersectionExact(requested[..n], granted);
      assert requested == requested[..n] + [requested[n]];
    }
  }

  method IntersectGranted(requested: seq<string>, granted: seq<string>) returns (out: seq<string>)
    ensures out == Intersection(requested, granted)
  {
    out := [];
    if granted == [] || requested == [] {
      NothingGranted(requested, granted);
      return;
    }
    var seen: set<string> := {};
    for n := 0 to |requested|
      invariant out == Intersection(requested[..n], granted)
      invariant forall r :: r in seen <==> r in out
    {
      var req := requested[n];
      assert requested[..n + 1][..n] == requested[..n];
      if req == "" || req in seen { continue; }
      var kept := false;
      for i := 0 to |granted|
        invariant !kept
        invariant forall j :: 0 <= j < i ==> !Admits(granted[j], req)
      {
        var g := granted[i];
        if g == "*" || g == req { kept := true; break; }
        if !Wild(req) {
          if Match(g, req) { kept := true; break; }
        }
      }
      if kept {
        out := out + [req];
        seen := seen + {req};
      }
    }
    assert requested[..|requested|] == requested;
  }

  lemma {:induction false} NothingGranted(requested: seq<string>, granted: seq<string>)
    requires granted == [] || requested == []
    ensures Intersection(requested, granted) == []
    decreases |requested|
  {
    if requested != [] { NothingGranted(requested[..|requested| - 1], granted); }
  }

  /** A concrete name is kept exactly when the boundary itself would admit it. */
  lemma {:induction false} ConcreteKeptIffAllowed(req: string, granted: seq<string>)
    requires req != "" && !Wild(req)
    ensures Kept(req, granted) <==> AnyCovers(granted, req)
  {
    forall i | 0 <= i < |granted| ensures Admits(granted[i], req) <==> Covers(granted[i], req) { }
  }

  /** Which names a grant admits, by what its entries mean: a concrete name without a slash is kept if
      and only if some entry is a bare star, is that name, or means it. */
  lemma {:induction false} KeptIffMeant(req: string, granted: seq<string>)
    requires req != "" && !Wild(req) && NoSlash(req)
    ensures Kept(req, granted) <==>
            exists i :: 0 <= i < |granted| && (granted[i] == "*" || granted[i] == req || Means(granted[i], req))
  {
    forall i | 0 <= i < |granted|
      ensures Admits(granted[i], req) <==> granted[i] == "*" || granted[i] == req || Means(granted[i], req)
    {
      MatchExact(granted[i], req);
    }
  }

  /** A grant of a prefix and a star keeps exactly the concrete names that start with the prefix and go
      on without a slash. */
  lemma {:induction false} PrefixGrantKeeps(prefix: string, req: string)
    requires !Wild(prefix) && '\\' !in prefix && prefix != "" && req != "" && !Wild(req)
    ensures Kept(req, [prefix + "*"]) <==> prefix <= req && NoSlash(req[|prefix|..])
  {
    var g := prefix + "*";
    PrefixGrant(prefix, req);
    assert g[|prefix|] == '*' && |g| > 1 && g != "*";
    assert '*' in g;
    assert [g][0] == g;
    if Match(g, req) { assert Admits([g][0], req); }
  }

  // ---------------------------------------------------------------- never wider than the grant

  /** Whatever the grant, keeping `req` admits no name the grant does not. */
  ghost predicate NeverWidens(req: string) {
    forall granted, name :: Kept(req, granted) && Covers(req, name) ==> AnyCovers(granted, name)
  }

  /** The request names nothing but itself, or is kept only as it stands. */
  predicate Plain(req: string) {
    Wild(req) || '\\' !in req || Dangling(req)
  }

  lemma {:induction false} PlainCoversItself(req: string, name: string)
    requires !Wild(req) && Plain(req) && Covers(req, name)
    ensures name == req
  {
    MatchLiteral(req, name);
    PlainUnescape(req);
  }

  lemma {:induction false} PlainNeverWidens(req: string, granted: seq<string>, name: string)
    requires Plain(req) && Kept(req, granted) && Covers(req, name)
    ensures AnyCovers(granted, name)
  {
    var i :| 0 <= i < |granted| && Admits(granted[i], req);
    if !Wild(req) { PlainCoversItself(req, name); }
    assert Covers(granted[i], name);
  }

  /** A concrete request with a working escape covers a shorter name that a grant for exactly the
      request does not. */
  lemma {:induction false} EscapeWidens(req: string)
    requires req != "" && !Plain(req)
    ensures Kept(req, [Quote(req)]) && Covers(req, Unescape(req)) && !AnyCovers([Quote(req)], Unescape(req))
  {
    var q, name := Quote(req), Unescape(req);
    QuoteSpells(req);
    PlainUnescape(req);
    MatchLiteral(req, name);
    assert !Wild(q);
    MatchLiteral(q, req);
    MatchLiteral(q, name);
    assert Admits([q][0], req);
  }

  /** Scope never widens, for every grant, if and only if the request is plain: it has a wildcard
      (and so was kept verbatim or by `*`), no backslash, or a dangling one. */
  lemma {:induction false} NeverWidensIff(req: string)
    requires req != ""
    ensures NeverWidens(req) <==> Plain(req)
  {
    if Plain(req) {
      forall granted, name | Kept(req, granted) && Covers(req, name) ensures AnyCovers(granted, name) {
        PlainNeverWidens(req, granted, name);
      }
    } else {
      EscapeWidens(req);
    }
  }

  // ---------------------------------------------------------------- corpora

  function Clamp(corpora: seq<string>): seq<string> {
    if corpora == [] then [DENY_ALL] else corpora
  }

  /** How a capability reads its corpus list: empty means no restriction. */
  predicate AllowsCorpus(corpora: seq<string>, name: string) {
    corpora == [] || AnyCovers(corpora, name)
  }

  lemma {:induction false} DenyAllCoversItself(name: string)
    ensures Covers(DENY_ALL, name) <==> name == DENY_ALL
  {
    assert !Wild(DENY_ALL) && '\\' !in DENY_ALL;
    MatchLiteral(DENY_ALL, name);
    PlainUnescape(DENY_ALL);
  }

  /** A minted capability reaches a corpus only if the org was granted it and the partner asked for
      it; an empty intersection reaches none, save a corpus named exactly like the sentinel. */
  lemma {:induction false} MintedCorporaNarrow(requested: seq<string>, granted: seq<string>, name: string)
    requires forall r :: r in requested ==> Plain(r)
    requires AllowsCorpus(Clamp(Intersection(requested, granted)), name)
    ensures name == DENY_ALL || (AnyCovers(granted, name) && AnyCovers(requested, name))
  {
    var out := Intersection(requested, granted);
    if out == [] {
      assert AnyCovers([DENY_ALL], name);
      DenyAllCoversItself(name);
    } else {
      MintedNarrow(requested, granted, name);
    }
  }

  /** What is kept is minted: a corpus that a kept request covers is reached. */
  lemma {:induction false} KeptCorpusMinted(requested: seq<string>, granted: seq<string>, req: string, name: string)
    requires req in requested && Kept(req, granted) && Covers(req, name)
    ensures AllowsCorpus(Clamp(Intersection(requested, granted)), name)
    ensures AnyCovers(Intersection(requested, granted), name)
  {
    IntersectionExact(requested, granted);
    var out := Intersection(requested, granted);
    var i :| 0 <= i < |out| && out[i] == req;
    assert Covers(out[i], name);
  }

  /** A minted capability covers only names that were both requested and granted. */
  lemma {:induction false} MintedNarrow(requested: seq<string>, granted: seq<string>, name: string)
    requires forall r :: r in requested ==> Plain(r)
    requires AnyCovers(Intersection(requested, granted), name)
    ensures AnyCovers(granted, name) && AnyCovers(requested, name)
  {
    var out := Intersection(requested, granted);
    IntersectionExact(requested, granted);
    var i :| 0 <= i < |out| && Covers(out[i], name);
    assert out[i] in out;
    PlainNeverWidens(out[i], granted, name);
    var j :| 0 <= j < |requested| && requested[j] == out[i];
    assert Covers(requested[j], name);
  }

  // ---------------------------------------------------------------- combining request entries

  /** The non-empty strings of `more` not met before, appended in order. */
  function Merged(base: seq<string>, more: seq<string>): seq<string> {
    if more == [] then base
    else
      var n := |more| - 1;
      var front := Merged(base, more[..n]);
      if more[n] != "" && more[n] !in front then front + [more[n]] else front
  }

  function AllActions(entries: seq<Detail>): seq<string> {
    if entries == [] then [] else Merged(AllActions(entries[..|entries| - 1]), entries[|entries| - 1].actions)
  }

  function AllDatatypes(entries: seq<Detail>): seq<string> {
    if entries == [] then [] else Merged(AllDatatypes(entries[..|entries| - 1]), entries[|entries| - 1].datatypes)
  }

  function AllLocations(entries: seq<Detail>): set<string> {
    if entries == [] then {} else AllLocations(entries[..|entries| - 1]) + NonEmpty(entries[|entries| - 1].locations)
  }

  function NonEmpty(s: seq<string>): set<string> {
    set l | l in s && l != ""
  }

  predicate NoRepeats(s: seq<string>) {
    forall i, j :: 0 <= i < j < |s| ==> s[i] != s[j]
  }

  lemma {:induction false} MergedExact(base: seq<string>, more: seq<string>)
    ensures forall x :: x in Merged(base, more) <==> x in base || (x in more && x != "")
    ensures NoRepeats(base) ==> NoRepeats(Merged(base, more))
    decreases |more|
  {
    if more != [] {
      var n := |more| - 1;
      MergedExact(base, more[..n]);
      assert more == more[..n] + [more[n]];
    }
  }

  /** The union asks for exactly the non-empty actions of the entries. */
  lemma {:induction false} ActionsExact(entries: seq<Detail>)
    ensures forall x :: x in AllActions(entries) <==> x != "" && exists e :: e in entries && x in e.actions
    ensures NoRepeats(AllActions(entries))
    decreases |entries|
  {
    if entries != [] {
      var n := |entries| - 1;
      ActionsExact(entries[..n]);
      MergedExact(AllActions(entries[..n]), entries[n].actions);
      assert entries == entries[..n] + [entries[n]];
    }
  }

  /** The locations are the non-empty ones of all the entries. */
  lemma {:induction false} LocationsExact(entries: seq<Detail>)
    ensures forall l :: l in AllLocations(entries) <==> l != "" && exists e :: e in entries && l in e.locations
    decreases |entries|
  {
    if entries != [] {
      var n := |entries| - 1;
      LocationsExact(entries[..n]);
      assert entries == entries[..n] + [entries[n]];
    }
  }

  method MergeInto(base: seq<string>, more: seq<string>) returns (out: seq<string>)
    ensures out == Merged(base, more)
  {
    out := base;
    for i := 0 to |more|
      invariant out == Merged(base, more[..i])
    {
      assert more[..i + 1][..i] == more[..i];
      if more[i] != "" && more[i] !in out { out := out + [more[i]]; }
    }
    assert more[..|more|] == more;
  }

  datatype Union = Refused | Union(tools: seq<string>, corpora: seq<string>, audience: string)

  /** The union of the entries, refused unless they name exactly one location and some action. */
  method UnionAuthDetails(entries: seq<Detail>) returns (u: Union)
    ensures u.Refused? <==> |AllLocations(entries)| != 1 || AllActions(entries) == []
    ensures u.Union? ==> u.tools == AllActions(entries) && u.corpora == AllDatatypes(entries)
                         && AllLocations(entries) == {u.audience}
  {
    var tools: seq<string>, corpora: seq<string>, locations: set<string> := [], [], {};
    for i := 0 to |entries|
      invariant tools == AllActions(entries[..i]) && corpora == AllDatatypes(entries[..i])
      invariant locations == AllLocations(entries[..i])
    {
      assert entries[..i + 1][..i] == entries[..i];
      tools := MergeInto(tools, entries[i].actions);
      corpora := MergeInto(corpora, entries[i].datatypes);
      locations := locations + NonEmpty(entries[i].locations);
    }
    assert entries[..|entries|] == entries;
    if |locations| > 1 { return Refused; }
    if locations == {} { return Refused; }
    var audience :| audience in locations;
    OneElement(locations, audience);
    if tools == [] { return Refused; }
    u := Union(tools, corpora, audience);
  }

  lemma {:induction false} OneElement(s: set<string>, x: string)
    requires x in s && |s| <= 1
    ensures s == {x} && |s| == 1
  {
    assert |s - {x}| == |s| - 1;
    assert s == {x} + (s - {x});
  }

  ghost predicate PlainEntries(entries: seq<Detail>) {
    forall e, a :: e in entries && (a in e.actions || a in e.datatypes) ==> Plain(a)
  }

  /** The scope of the capability an exchange mints, or a refusal. If the request is plain, every
      tool it covers was asked for by some entry and is granted to the org; every corpus likewise. */
  method ExchangeScope(entries: seq<Detail>, tools: seq<string>, corpora: seq<string>) returns (u: Union)
    ensures u.Refused? <==> |AllLocations(entries)| != 1 || Intersection(AllActions(entries), tools) == []
    ensures u.Union? ==>
              && u.tools == Intersection(AllActions(entries), tools) && u.tools != []
              && u.corpora == Clamp(Intersection(AllDatatypes(entries), corpora)) && u.corpora != []
              && AllLocations(entries) == {u.audience}
    ensures forall name :: u.Union? && PlainEntries(entries) && AnyCovers(u.tools, name) ==>
                           AnyCovers(tools, name) && AnyCovers(AllActions(entries), name)
    ensures forall name :: u.Union? && PlainEntries(entries) && AllowsCorpus(u.corpora, name) && name != DENY_ALL ==>
                           AnyCovers(corpora, name) && AnyCovers(AllDatatypes(entries), name)
  {
    u := UnionAuthDetails(entries);
    if u.Refused? { return; }
    ActionsExact(entries);
    DatatypesExact(entries);
    var t := IntersectGranted(u.tools, tools);
    var c := IntersectGranted(u.corpora, corpora);
    forall name | PlainEntries(entries) && AnyCovers(t, name)
      ensures AnyCovers(tools, name) && AnyCovers(AllActions(entries), name)
    {
      MintedNarrow(AllActions(entries), tools, name);
    }
    forall name | PlainEntries(entries) && AllowsCorpus(Clamp(c), name) && name != DENY_ALL
      ensures AnyCovers(corpora, name) && AnyCovers(AllDatatypes(entries), name)
    {
      MintedCorporaNarrow(AllDatatypes(entries), corpora, name);
    }
    if t == [] { return Refused; }
    u := Union(t, Clamp(c), u.audience);
  }

  lemma {:induction false} DatatypesExact(entries: seq<Detail>)
    ensures forall x :: x in AllDatatypes(entries) <==> x != "" && exists e :: e in entries && x in e.datatypes
    ensures NoRepeats(AllDatatypes(entries))
    decreases |entries|
  {
    if entries != [] {
      var n := |entries| - 1;
      DatatypesExact(entries[..n]);
      MergedExact(AllDatatypes(entries[..n]), entries[n].datatypes);
      assert entries == entries[..n] + [entries[n]];
    }
  }
}
