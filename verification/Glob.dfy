/** Go's `path.Match`, branch for branch, and what it means on patterns without wildcards.
    Only the boolean is modelled: a malformed pattern matches nothing. */
module Glob {
  import opened Common

  // ---------------------------------------------------------------- chunks

  function SkipStars(p: string): string {
    if p != "" && p[0] == '*' then SkipStars(p[1..]) else p
  }

  /** Where the chunk that starts at `i` ends: at the next star outside a character class. */
  function ChunkEnd(p: string, i: nat, inClass: bool): (n: nat)
    requires i <= |p|
    ensures i <= n <= |p|
    ensures i < |p| && p[i] != '*' ==> n > i
    decreases |p| - i
  {
    if i == |p| then i
    else if p[i] == '\\' then (if i + 1 < |p| then ChunkEnd(p, i + 2, inClass) else |p|)
    else if p[i] == '[' then ChunkEnd(p, i + 1, true)
    else if p[i] == ']' then ChunkEnd(p, i + 1, false)
    else if p[i] == '*' && !inClass then i
    else ChunkEnd(p, i + 1, inClass)
  }

  /** A possibly escaped character of a class, and what follows it, which may not be nothing. */
  function GetEsc(c: string): Option<(char, string)> {
    if c == "" || c[0] == '-' || c[0] == ']' then None
    else
      var d := if c[0] == '\\' then c[1..] else c;
      if |d| < 2 then None else Some((d[0], d[1..]))
  }

  lemma {:induction false} GetEscShrinks(c: string)
    ensures GetEsc(c).Some? ==> 0 < |GetEsc(c).value.1| < |c|
  {
  }

  /** The ranges of a class up to its closing bracket: did one hold `r`, and what follows. */
  function Ranges(c: string, r: char, some: bool, found: bool): (res: Option<(bool, string)>)
    ensures res.Some? ==> |res.value.1| < |c|
    decreases |c|
  {
    if c != "" && c[0] == ']' && some then Some((found, c[1..]))
    else
      GetEscShrinks(c);
      match GetEsc(c)
      case None => None
      case Some((lo, rest)) =>
        if rest[0] != '-' then Ranges(rest, r, true, found || lo == r)
        else
          GetEscShrinks(rest[1..]);
          match GetEsc(rest[1..])
          case None => None
          case Some((hi, rest')) => Ranges(rest', r, true, found || lo <= r <= hi)
  }

  datatype Chunk = Bad | Miss | Hit(rest: string)

  /** Matches a chunk at the front of `s`. After a failure the chunk is still read to its end, to
      see whether it is well formed. */
  function MatchChunk(chunk: string, s: string, failed: bool): Chunk
    decreases |chunk|
  {
    if chunk == "" then (if failed then Miss else Hit(s))
    else
      var lost := failed || s == "";
      var tail := if lost then s else s[1..];
      if chunk[0] == '[' then
        var negated := |chunk| > 1 && chunk[1] == '^';
        match Ranges(if negated then chunk[2..] else chunk[1..], if lost then '\0' else s[0], false, false)
        case None => Bad
        case Some((found, rest)) => MatchChunk(rest, tail, lost || found == negated)
      else if chunk[0] == '?' then MatchChunk(chunk[1..], tail, lost || s[0] == '/')
      else if chunk[0] == '\\' then
        if |chunk| == 1 then Bad else MatchChunk(chunk[2..], tail, lost || chunk[1] != s[0])
      else MatchChunk(chunk[1..], tail, lost || chunk[0] != s[0])
  }

  // ---------------------------------------------------------------- the whole pattern

  lemma {:induction false} SkipStarsShrinks(p: string)
    ensures |SkipStars(p)| <= |p|
    ensures p != "" && p[0] == '*' ==> |SkipStars(p)| < |p|
    ensures p == "" || p[0] != '*' ==> SkipStars(p) == p
    ensures SkipStars(p) == "" || SkipStars(p)[0] != '*'
  {
    if p != "" && p[0] == '*' { SkipStarsShrinks(p[1..]); }
  }

  function Match(pattern: string, name: string): bool
    decreases |pattern|, |name| + 1
  {
    if pattern == "" then name == ""
    else
      SkipStarsShrinks(pattern);
      var star, body := pattern[0] == '*', SkipStars(pattern);
      var n := ChunkEnd(body, 0, false);
      var chunk, rest := body[..n], body[n..];
      if star && chunk == "" then '/' !in name
      else
        match MatchChunk(chunk, name, false)
        case Bad => false
        case Hit(t) => if t == "" || rest != "" then Match(rest, t) else star && MatchLater(chunk, rest, name)
        case Miss => star && MatchLater(chunk, rest, name)
  }

  /** After a star: the first later position, not past a slash, at which the chunk matches. */
  function MatchLater(chunk: string, rest: string, name: string): bool
    requires chunk != ""
    decreases |rest| + 1, 0, |name|
  {
    if name == "" || name[0] == '/' then false
    else
      match MatchChunk(chunk, name[1..], false)
      case Bad => false
      case Miss => MatchLater(chunk, rest, name[1..])
      case Hit(t) => if rest == "" && t != "" then MatchLater(chunk, rest, name[1..]) else Match(rest, t)
  }

  // ---------------------------------------------------------------- patterns without wildcards

  predicate Wild(p: string) {
    '*' in p || '?' in p || '[' in p
  }

  /** Ends in a backslash that escapes nothing. */
  predicate Dangling(p: string) {
    if p == "" then false
    else if p[0] == '\\' then (if |p| == 1 then true else Dangling(p[2..]))
    else Dangling(p[1..])
  }

  function Unescape(p: string): (r: string)
    ensures |r| <= |p|
  {
    if p == "" then ""
    else if p[0] == '\\' then (if |p| == 1 then "" else [p[1]] + Unescape(p[2..]))
    else [p[0]] + Unescape(p[1..])
  }

  lemma {:induction false} ChunkEndAll(p: string, i: nat, inClass: bool)
    requires i <= |p| && '*' !in p
    ensures ChunkEnd(p, i, inClass) == |p|
    decreases |p| - i
  {
    if i < |p| {
      if p[i] == '\\' {
        if i + 1 < |p| { ChunkEndAll(p, i + 2, inClass); }
      } else {
        ChunkEndAll(p, i + 1, if p[i] == '[' then true else if p[i] == ']' then false else inClass);
      }
    }
  }

  lemma {:induction false} WildTail(p: string, n: nat)
    requires !Wild(p) && n <= |p|
    ensures !Wild(p[n..])
  {
    forall c | c in p[n..] ensures c in p { }
  }

  lemma {:induction false} FailedStaysFailed(p: string, s: string)
    requires !Wild(p)
    ensures MatchChunk(p, s, true) == if Dangling(p) then Bad else Miss
    decreases |p|
  {
    if p != "" {
      if p[0] == '\\' {
        if |p| > 1 { WildTail(p, 2); FailedStaysFailed(p[2..], s); }
      } else {
        WildTail(p, 1);
        assert p[0] != '[' && p[0] != '?';
        FailedStaysFailed(p[1..], s);
      }
    }
  }

  lemma {:induction false} ChunkLiteral(p: string, s: string)
    requires !Wild(p)
    ensures MatchChunk(p, s, false) ==
            if Dangling(p) then Bad else if Unescape(p) <= s then Hit(s[|Unescape(p)|..]) else Miss
    decreases |p|
  {
    if p != "" {
      var k := if p[0] == '\\' then 2 else 1;
      assert p[0] != '[' && p[0] != '?' && p[0] != '*';
      if !(p[0] == '\\' && |p| == 1) {
        var c := p[k - 1];
        WildTail(p, k);
        assert Unescape(p) == [c] + Unescape(p[k..]) && Dangling(p) == Dangling(p[k..]);
        if s == "" || c != s[0] {
          FailedStaysFailed(p[k..], if s == "" then s else s[1..]);
        } else {
          ChunkLiteral(p[k..], s[1..]);
          PrefixCons(c, Unescape(p[k..]), s);
        }
      }
    }
  }

  lemma {:induction false} PrefixCons(c: char, u: string, s: string)
    requires s != "" && s[0] == c
    ensures [c] + u <= s <==> u <= s[1..]
    ensures [c] + u <= s ==> s[|[c] + u|..] == s[1..][|u|..]
  {
    assert s == [s[0]] + s[1..];
    if [c] + u <= s {
      assert s[..|u| + 1] == [c] + u;
      assert s[1..][..|u|] == u;
    }
  }

  /** A pattern without wildcards matches exactly the one name its escapes spell out, and nothing
      at all if it is malformed. */
  lemma {:induction false} MatchLiteral(p: string, name: string)
    requires !Wild(p)
    ensures Match(p, name) <==> !Dangling(p) && name == Unescape(p)
  {
    if p != "" {
      assert p[0] != '*';
      SkipStarsShrinks(p);
      ChunkEndAll(p, 0, false);
      assert p[..|p|] == p && p[|p|..] == "";
      ChunkLiteral(p, name);
    }
  }

  /** Without a backslash, what is spelled out is the pattern itself. */
  lemma {:induction false} PlainUnescape(p: string)
    ensures '\\' !in p ==> !Dangling(p) && Unescape(p) == p
    ensures '\\' in p && !Dangling(p) ==> |Unescape(p)| < |p|
    decreases |p|
  {
    if p != "" {
      assert p == [p[0]] + p[1..];
      if p[0] == '\\' {
        if |p| > 1 { PlainUnescape(p[2..]); }
      } else {
        PlainUnescape(p[1..]);
      }
    }
  }

  /** Every character escaped: a pattern for exactly one name. */
  function Quote(s: string): (q: string)
    ensures |q| == 2 * |s|
  {
    if s == "" then "" else ['\\', s[0]] + Quote(s[1..])
  }

  lemma {:induction false} QuoteSpells(s: string)
    ensures !Dangling(Quote(s)) && Unescape(Quote(s)) == s
    ensures forall c :: c in Quote(s) ==> c == '\\' || c in s
    decreases |s|
  {
    if s != "" {
      QuoteSpells(s[1..]);
      var q := Quote(s);
      assert q[0] == '\\' && q[1] == s[0] && q[2..] == Quote(s[1..]);
      assert s == [s[0]] + s[1..];
    }
  }
}
