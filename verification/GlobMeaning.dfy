/** What `path.Match` means, stated apart from how it searches, and when its search finds every match. */
module GlobMeaning {
  import opened Common
  import opened Glob

  // ---------------------------------------------------------------- one element of a pattern

  /** What follows the first element of a pattern that does not start with a star; None if it is
      malformed. */
  function Rest(p: string): (r: Option<string>)
    requires p != "" && p[0] != '*'
    ensures r.Some? ==> |r.value| < |p|
  {
    if p[0] == '[' then
      match Ranges(if |p| > 1 && p[1] == '^' then p[2..] else p[1..], '\0', false, false)
      case None => None
      case Some((_, rest)) => Some(rest)
    else if p[0] == '\\' then (if |p| == 1 then None else Some(p[2..]))
    else Some(p[1..])
  }

  /** Whether the first element admits a character: a class one in its ranges, or outside them if
      negated; a question mark anything but a slash; everything else itself. */
  predicate Fits(p: string, c: char)
    requires p != "" && p[0] != '*'
  {
    if p[0] == '[' then
      var negated := |p| > 1 && p[1] == '^';
      var ranges := Ranges(if negated then p[2..] else p[1..], c, false, false);
      ranges.Some? && ranges.value.0 != negated
    else if p[0] == '?' then c != '/'
    else if p[0] == '\\' then |p| > 1 && p[1] == c
    else p[0] == c
  }

  /** The meaning of a pattern: a star stands for any characters but slashes, any other element for one
      character it admits, and the whole name is spelled. */
  ghost predicate Means(p: string, name: string)
    decreases |p|, |name|
  {
    if p == "" then name == ""
    else if p[0] == '*' then Means(p[1..], name) || (name != "" && name[0] != '/' && Means(p, name[1..]))
    else name != "" && Fits(p, name[0]) && Rest(p).Some? && Means(Rest(p).value, name[1..])
  }

  /** One range of a class, a single character being its own range, and what follows it. */
  function Item(c: string): (r: Option<(char, char, string)>)
    ensures r.Some? ==> 0 < |r.value.2| < |c|
  {
    GetEscShrinks(c);
    match GetEsc(c)
    case None => None
    case Some((lo, rest)) =>
      if rest[0] != '-' then Some((lo, lo, rest))
      else
        GetEscShrinks(rest[1..]);
        match GetEsc(rest[1..])
        case None => None
        case Some((hi, rest')) => Some((lo, hi, rest'))
  }

  predicate Closes(c: string, some: bool) {
    c != "" && c[0] == ']' && some
  }

  lemma {:induction false} RangesStep(c: string, x: char, some: bool, f: bool)
    requires !Closes(c, some)
    ensures Ranges(c, x, some, f) ==
            match Item(c)
            case None => None
            case Some((lo, hi, rest)) => Ranges(rest, x, true, f || lo <= x <= hi)
  {
    GetEscShrinks(c);
  }

  /** The ranges end where they end whatever is looked for in them. */
  lemma {:induction false} RangesEnd(c: string, x: char, y: char, some: bool, f: bool, g: bool)
    ensures Ranges(c, x, some, f).Some? <==> Ranges(c, y, some, g).Some?
    ensures Ranges(c, x, some, f).Some? ==> Ranges(c, x, some, f).value.1 == Ranges(c, y, some, g).value.1
    decreases |c|
  {
    if !Closes(c, some) {
      RangesStep(c, x, some, f);
      RangesStep(c, y, some, g);
      match Item(c)
      case None =>
      case Some((lo, hi, rest)) => RangesEnd(rest, x, y, true, f || lo <= x <= hi, g || lo <= y <= hi);
    }
  }

  /** A chunk is matched element by element. */
  lemma {:induction false} ChunkStep(chunk: string, s: string, failed: bool)
    requires chunk != "" && chunk[0] != '*'
    ensures MatchChunk(chunk, s, failed) ==
            if Rest(chunk).None? then Bad
            else MatchChunk(Rest(chunk).value, if failed || s == "" then s else s[1..],
                            failed || s == "" || !Fits(chunk, s[0]))
  {
    if chunk[0] == '[' {
      var body := if |chunk| > 1 && chunk[1] == '^' then chunk[2..] else chunk[1..];
      RangesEnd(body, '\0', if failed || s == "" then '\0' else s[0], false, false, false);
    }
  }

  // ---------------------------------------------------------------- chunks

  /** A chunk holds no star but inside a class or escaped. */
  predicate StarFree(p: string)
    decreases |p|
  {
    p == "" || (p[0] != '*' && (Rest(p).Some? ==> StarFree(Rest(p).value)))
  }

  /** How many characters a well-formed chunk spells. */
  function Width(p: string): Option<nat>
    requires StarFree(p)
    decreases |p|
  {
    if p == "" then Some(0)
    else if Rest(p).None? then None
    else
      match Width(Rest(p).value)
      case None => None
      case Some(n) => Some(n + 1)
  }

  /** The chunk spells the front of `s`. */
  predicate Spells(p: string, s: string)
    requires StarFree(p)
    decreases |p|
  {
    p == "" || (s != "" && Fits(p, s[0]) && Rest(p).Some? && Spells(Rest(p).value, s[1..]))
  }

  lemma {:induction false} FailedChunk(p: string, s: string)
    requires StarFree(p)
    ensures MatchChunk(p, s, true) == if Width(p).None? then Bad else Miss
    decreases |p|
  {
    if p != "" {
      ChunkStep(p, s, true);
      if Rest(p).Some? { FailedChunk(Rest(p).value, s); }
    }
  }

  /** What matching a chunk decides. */
  lemma {:induction false} ChunkMatches(p: string, s: string)
    requires StarFree(p)
    ensures Spells(p, s) && Width(p).Some? ==> Width(p).value <= |s|
    ensures MatchChunk(p, s, false) ==
            if Width(p).None? then Bad else if Spells(p, s) then Hit(s[Width(p).value..]) else Miss
    decreases |p|
  {
    if p != "" {
      ChunkStep(p, s, false);
      if Rest(p).Some? {
        var rest := Rest(p).value;
        if s != "" && Fits(p, s[0]) {
          ChunkMatches(rest, s[1..]);
          if Width(rest).Some? && Spells(rest, s[1..]) {
            assert s[1..][Width(rest).value..] == s[Width(p).value..];
          }
        } else {
          FailedChunk(rest, if s == "" then s else s[1..]);
        }
      }
    }
  }

  // ---------------------------------------------------------------- where chunks end

  lemma {:induction false} GetEscCut(c: string, n: nat)
    requires n <= |c|
    ensures GetEsc(c).Some? ==> GetEsc(c).value.1 == c[|c| - |GetEsc(c).value.1|..]
    ensures GetEsc(c).None? ==> GetEsc(c[..n]).None?
    ensures GetEsc(c).Some? ==>
              var k := |c| - |GetEsc(c).value.1|;
              GetEsc(c[..n]) == if k < n then Some((GetEsc(c).value.0, c[k..n])) else None
  {
    if c != "" && c[0] == '\\' && n > 0 {
      assert c[..n][1..] == c[1..n];
    }
  }

  lemma {:induction false} ItemCut(c: string, n: nat)
    requires n <= |c|
    ensures Item(c).None? ==> Item(c[..n]).None?
    ensures Item(c).Some? ==>
              var (lo, hi, rest) := Item(c).value;
              var k := |c| - |rest|;
              rest == c[k..] && Item(c[..n]) == if k < n then Some((lo, hi, c[k..n])) else None
  {
    GetEscShrinks(c);
    GetEscCut(c, n);
    if GetEsc(c).Some? {
      var rest := GetEsc(c).value.1;
      var k := |c| - |rest|;
      if k < n && rest[0] == '-' {
        GetEscCut(rest[1..], n - k - 1);
        assert rest[1..][..n - k - 1] == c[k + 1..n] == c[k..n][1..];
        if GetEsc(rest[1..]).Some? {
          var rest' := GetEsc(rest[1..]).value.1;
          assert rest[1..] == c[k + 1..];
          assert rest' == c[|c| - |rest'|..];
        }
      }
    }
  }

  /** Two readings of a class, of which the second was cut off at `n`. */
  ghost predicate CutAlike(c: string, n: nat, whole: Option<(bool, string)>, cut: Option<(bool, string)>) {
    n <= |c| &&
    if whole.None? then cut.None?
    else
      var k := |c| - |whole.value.1|;
      0 <= k <= n && whole.value.1 == c[k..] && cut == Some((whole.value.0, c[k..n]))
  }

  lemma {:induction false} CutFurther(c: string, k: nat, n: nat, whole: Option<(bool, string)>,
                                      cut: Option<(bool, string)>)
    requires k <= n <= |c| && CutAlike(c[k..], n - k, whole, cut)
    ensures CutAlike(c, n, whole, cut)
  {
    if whole.Some? { TailOfTail(c, k, |c| - k - |whole.value.1|, n); }
  }

  /** Cut off behind its closing bracket a class reads the same; cut off before it, it is malformed. */
  lemma {:induction false} RangesCut(c: string, x: char, some: bool, f: bool, n: nat)
    requires n <= |c|
    requires Ranges(c, x, some, f).Some? ==> |c| - |Ranges(c, x, some, f).value.1| <= n
    ensures CutAlike(c, n, Ranges(c, x, some, f), Ranges(c[..n], x, some, f))
    decreases |c|, 1
  {
    if Closes(c, some) {
      if n > 0 { assert c[..n][1..] == c[1..n]; }
    } else {
      RangesStep(c, x, some, f);
      ItemCut(c, n);
      if !Closes(c[..n], some) { RangesStep(c[..n], x, some, f); }
      if Item(c).Some? { RangesCutItem(c, x, some, f, n); }
    }
  }

  lemma {:induction false} RangesCutItem(c: string, x: char, some: bool, f: bool, n: nat)
    requires n <= |c| && !Closes(c, some) && !Closes(c[..n], some) && Item(c).Some?
    requires Ranges(c, x, some, f).Some? ==> |c| - |Ranges(c, x, some, f).value.1| <= n
    ensures CutAlike(c, n, Ranges(c, x, some, f), Ranges(c[..n], x, some, f))
    decreases |c|, 0
  {
    var (lo, hi, rest) := Item(c).value;
    var k := |c| - |rest|;
    ItemCut(c, n);
    RangesStep(c, x, some, f);
    RangesStep(c[..n], x, some, f);
    if k < n {
      RangesCut(rest, x, true, f || lo <= x <= hi, n - k);
      assert rest[..n - k] == c[k..n];
      CutFurther(c, k, n, Ranges(c, x, some, f), Ranges(c[..n], x, some, f));
    }
  }

  lemma {:induction false} TailOfTail(c: string, k: nat, m: nat, n: nat)
    requires k + m <= n <= |c|
    ensures c[k..][m..] == c[k + m..] && c[k..][m..n - k] == c[k + m..n]
  {
  }

  lemma {:induction false} ScanEsc(p: string, i: nat, c: string)
    requires i <= |p| && p[i..] == c && GetEsc(c).Some?
    ensures |GetEsc(c).value.1| <= |p| && ChunkEnd(p, i, true) == ChunkEnd(p, |p| - |GetEsc(c).value.1|, true)
  {
    assert c[0] == p[i];
    if c[0] == '\\' { assert c[1] == p[i + 1]; }
  }

  lemma {:induction false} ScanDash(p: string, i: nat)
    requires i < |p| && p[i] == '-'
    ensures ChunkEnd(p, i, true) == ChunkEnd(p, i + 1, true)
  {
  }

  lemma {:induction false} EscTail(p: string, i: nat, c: string)
    requires i <= |p| && p[i..] == c && GetEsc(c).Some?
    ensures |GetEsc(c).value.1| <= |p| && p[|p| - |GetEsc(c).value.1|..] == GetEsc(c).value.1
  {
    GetEscCut(c, |c|);
  }

  /** The scan inside a class, from a place where `c` follows, gets to where `rest` follows. */
  ghost predicate ScansTo(p: string, i: nat, rest: string) {
    i <= |p| && |rest| <= |p| && p[|p| - |rest|..] == rest && ChunkEnd(p, i, true) == ChunkEnd(p, |p| - |rest|, true)
  }

  lemma {:induction false} ScansEsc(p: string, i: nat, c: string)
    requires i <= |p| && p[i..] == c && GetEsc(c).Some?
    ensures ScansTo(p, i, GetEsc(c).value.1)
  {
    EscTail(p, i, c);
    ScanEsc(p, i, c);
  }

  lemma {:induction false} ScansDash(p: string, j: nat, rest: string)
    requires j <= |p| && p[j..] == rest && rest != "" && rest[0] == '-' && GetEsc(rest[1..]).Some?
    ensures ScansTo(p, j, GetEsc(rest[1..]).value.1)
  {
    assert p[j] == rest[0] && p[j + 1..] == rest[1..];
    ScanDash(p, j);
    ScansEsc(p, j + 1, rest[1..]);
  }

  lemma {:induction false} ScanItem(p: string, i: nat, c: string)
    requires i <= |p| && p[i..] == c && Item(c).Some?
    ensures ScansTo(p, i, Item(c).value.2)
  {
    GetEscShrinks(c);
    ScansEsc(p, i, c);
    var rest := GetEsc(c).value.1;
    if rest[0] == '-' { ScansDash(p, |p| - |rest|, rest); }
  }

  /** The scan for the end of a chunk passes over a well-formed class. */
  lemma {:induction false} ScanClass(p: string, i: nat, c: string, x: char, some: bool, f: bool)
    requires i <= |p| && p[i..] == c && Ranges(c, x, some, f).Some?
    ensures var rest := Ranges(c, x, some, f).value.1;
            |rest| <= |p| && ChunkEnd(p, i, true) == ChunkEnd(p, |p| - |rest|, false)
    decreases |c|
  {
    if Closes(c, some) {
      assert p[i] == ']';
    } else {
      RangesStep(c, x, some, f);
      ScanItem(p, i, c);
      var (lo, hi, rest) := Item(c).value;
      ScanClass(p, |p| - |rest|, rest, x, true, f || lo <= x <= hi);
    }
  }

  /** The scan from behind the first element is the scan from the start. */
  lemma {:induction false} ScanElement(p: string)
    requires p != "" && p[0] != '*' && Rest(p).Some?
    ensures ChunkEnd(p, 0, false) == ChunkEnd(p, |p| - |Rest(p).value|, false)
    ensures Rest(p).value == p[|p| - |Rest(p).value|..]
  {
    if p[0] == '[' {
      var i := if |p| > 1 && p[1] == '^' then 2 else 1;
      RangesCut(p[i..], '\0', false, false, |p[i..]|);
      ScanClass(p, i, p[i..], '\0', false, false);
    }
  }

  lemma {:induction false} ScanShift(p: string, k: nat, i: nat, inClass: bool)
    requires k <= |p| && i <= |p| - k
    ensures ChunkEnd(p, k + i, inClass) == k + ChunkEnd(p[k..], i, inClass)
    decreases |p| - k - i
  {
    var q := p[k..];
    if i < |q| {
      assert q[i] == p[k + i];
      if q[i] == '\\' {
        if i + 1 < |q| { ScanShift(p, k, i + 2, inClass); }
      } else if q[i] == '[' {
        ScanShift(p, k, i + 1, true);
      } else if q[i] == ']' {
        ScanShift(p, k, i + 1, false);
      } else if !(q[i] == '*' && !inClass) {
        ScanShift(p, k, i + 1, inClass);
      }
    }
  }

  /** The first element of a chunk is the first element of the pattern it was cut from. */
  lemma {:induction false} CutElement(p: string, n: nat)
    requires p != "" && p[0] != '*' && n == ChunkEnd(p, 0, false)
    ensures 0 < n <= |p|
    ensures Rest(p).None? ==> Rest(p[..n]).None?
    ensures Rest(p).Some? ==>
              var k := |p| - |Rest(p).value|;
              k <= n && Rest(p[..n]) == Some(Rest(p).value[..n - k]) && n - k == ChunkEnd(Rest(p).value, 0, false)
    ensures Rest(p).Some? ==> forall c :: Fits(p[..n], c) <==> Fits(p, c)
  {
    var q := p[..n];
    if Rest(p).Some? {
      var k := |p| - |Rest(p).value|;
      ScanElement(p);
      ScanShift(p, k, 0, false);
    }
    if p[0] == '[' {
      CutClass(p, n);
      if Rest(p).Some? {
        var k := |p| - |Rest(p).value|;
        assert p[k..][..n - k] == p[k..n];
      }
    } else if p[0] == '\\' {
      if |p| > 1 { assert q[2..] == p[2..n] == p[2..][..n - 2]; }
    } else {
      assert q[1..] == p[1..n] == p[1..][..n - 1];
    }
  }

  /** Where the ranges of a class start. */
  function Opening(p: string): nat {
    if |p| > 1 && p[1] == '^' then 2 else 1
  }

  lemma {:induction false} CutClass(p: string, n: nat)
    requires p != "" && p[0] == '[' && 0 < n <= |p|
    requires Rest(p).Some? ==> |p| - |Rest(p).value| <= n
    ensures Rest(p).None? ==> Rest(p[..n]).None?
    ensures Rest(p).Some? ==>
              var k := |p| - |Rest(p).value|; Rest(p).value == p[k..] && Rest(p[..n]) == Some(p[k..n])
    ensures Rest(p).Some? ==> forall c :: Fits(p[..n], c) <==> Fits(p, c)
  {
    var i := Opening(p);
    if n >= i {
      assert p[..n][i..] == p[i..][..n - i];
      RangesCut(p[i..], '\0', false, false, n - i);
      if Rest(p).Some? {
        TailOfTail(p, i, |p| - i - |Rest(p).value|, n);
        forall c ensures Fits(p[..n], c) <==> Fits(p, c) { CutFits(p, n, c); }
      }
    }
  }

  lemma {:induction false} CutFits(p: string, n: nat, c: char)
    requires p != "" && p[0] == '[' && Opening(p) <= n <= |p| && Rest(p).Some? && |p| - |Rest(p).value| <= n
    ensures Fits(p[..n], c) <==> Fits(p, c)
  {
    var i := Opening(p);
    assert p[..n][i..] == p[i..][..n - i];
    RangesEnd(p[i..], '\0', c, false, false, false);
    RangesCut(p[i..], c, false, false, n - i);
  }

  /** A chunk is star-free, and a pattern means its chunk followed by what the rest means. */
  lemma {:induction false} ChunkMeans(p: string, name: string)
    requires p == "" || p[0] != '*'
    ensures var n := ChunkEnd(p, 0, false);
            && StarFree(p[..n]) && (p[n..] == "" || p[n] == '*')
            && (Means(p, name) <==>
                  Width(p[..n]).Some? && Spells(p[..n], name)
                  && Width(p[..n]).value <= |name| && Means(p[n..], name[Width(p[..n]).value..]))
    decreases |p|
  {
    var n := ChunkEnd(p, 0, false);
    if p == "" {
      assert name[0..] == name;
    } else {
      CutElement(p, n);
      if Rest(p).Some? {
        var rest := Rest(p).value;
        var k := |p| - |rest|;
        ScanElement(p);
        assert p[n..] == rest[n - k..];
        if rest != "" && rest[0] == '*' {
          assert n == k && p[..n] != "";
          assert rest[..0] == "";
          if name != "" { assert name[1..] == name[1..][0..]; }
        } else {
          ChunkMeans(rest, if name == "" then "" else name[1..]);
          if name != "" && Width(rest[..n - k]).Some? && Width(rest[..n - k]).value <= |name| - 1 {
            assert name[1..][Width(rest[..n - k]).value..] == name[Width(p[..n]).value..];
          }
          ChunkMatches(rest[..n - k], if name == "" then "" else name[1..]);
        }
      } else {
        NoEnd(p, n);
      }
    }
  }

  /** A malformed element runs to the end of its chunk. */
  lemma {:induction false} NoEnd(p: string, n: nat)
    requires p != "" && p[0] != '*' && Rest(p).None? && n == ChunkEnd(p, 0, false)
    ensures p[n..] == "" || p[n] == '*'
  {
    EndsAtStar(p, 0, false);
  }

  lemma {:induction false} EndsAtStar(p: string, i: nat, inClass: bool)
    requires i <= |p|
    ensures var n := ChunkEnd(p, i, inClass); n == |p| || p[n] == '*'
    decreases |p| - i
  {
    if i < |p| {
      if p[i] == '\\' {
        if i + 1 < |p| { EndsAtStar(p, i + 2, inClass); }
      } else if p[i] == '[' {
        EndsAtStar(p, i + 1, true);
      } else if p[i] == ']' {
        EndsAtStar(p, i + 1, false);
      } else if !(p[i] == '*' && !inClass) {
        EndsAtStar(p, i + 1, inClass);
      }
    }
  }

  // ---------------------------------------------------------------- stars

  predicate NoSlash(s: string) {
    '/' !in s
  }

  /** The body can be spelled from `i` on, and a star may stand for what comes before. */
  ghost predicate StarAt(body: string, name: string, i: nat) {
    i <= |name| && NoSlash(name[..i]) && Means(body, name[i..])
  }

  ghost predicate StarSomewhere(body: string, name: string) {
    exists i: nat :: StarAt(body, name, i)
  }

  lemma {:induction false} StarMeans(p: string, name: string)
    requires p != "" && p[0] == '*'
    ensures Means(p, name) <==> StarSomewhere(p[1..], name)
    decreases |name|
  {
    var body := p[1..];
    if Means(p, name) {
      if Means(body, name) {
        assert name[0..] == name && StarAt(body, name, 0);
      } else {
        StarMeans(p, name[1..]);
        var i: nat :| StarAt(body, name[1..], i);
        assert name[..i + 1] == [name[0]] + name[1..][..i] && name[1..][i..] == name[i + 1..];
        assert StarAt(body, name, i + 1);
      }
    }
    if i: nat :| StarAt(body, name, i) {
      if i == 0 {
        assert name[0..] == name;
      } else {
        assert name[..i][0] == name[0] && name[..i][1..] == name[1..][..i - 1] && name[1..][i - 1..] == name[i..];
        assert StarAt(body, name[1..], i - 1);
        StarMeans(p, name[1..]);
      }
    }
  }

  lemma {:induction false} StarTwice(body: string, name: string, i: nat, j: nat)
    requires i <= |name| && NoSlash(name[..i]) && StarAt(body, name[i..], j)
    ensures StarSomewhere(body, name)
  {
    assert name[..i + j] == name[..i] + name[i..][..j] && name[i..][j..] == name[i + j..];
    assert StarAt(body, name, i + j);
  }

  lemma {:induction false} StarHere(body: string, name: string)
    requires Means(body, name)
    ensures StarSomewhere(body, name)
  {
    assert name[..0] == "" && name[0..] == name;
    assert StarAt(body, name, 0);
  }

  /** Several stars in a row are one. */
  lemma {:induction false} StarsMean(p: string, name: string)
    requires p != "" && p[0] == '*'
    ensures Means(p, name) <==> StarSomewhere(SkipStars(p), name)
    decreases |p|
  {
    var q := p[1..];
    StarMeans(p, name);
    assert SkipStars(p) == SkipStars(q);
    if q == "" || q[0] != '*' {
      assert SkipStars(q) == q;
    } else {
      if Means(p, name) {
        var i: nat :| StarAt(q, name, i);
        StarsMean(q, name[i..]);
        var j: nat :| StarAt(SkipStars(q), name[i..], j);
        StarTwice(SkipStars(q), name, i, j);
      }
      if StarSomewhere(SkipStars(p), name) {
        var i: nat :| StarAt(SkipStars(p), name, i);
        StarHere(SkipStars(q), name[i..]);
        StarsMean(q, name[i..]);
        assert StarAt(q, name, i);
      }
    }
  }

  // ---------------------------------------------------------------- the search

  /** The chunk is spelled at `i` and the rest means what follows. */
  ghost predicate FoundAt(chunk: string, rest: string, name: string, i: nat)
    requires StarFree(chunk)
  {
    && i <= |name| && Width(chunk).Some? && Spells(chunk, name[i..])
    && i + Width(chunk).value <= |name| && Means(rest, name[i + Width(chunk).value..])
  }

  /** A place found after a star. */
  ghost predicate FoundClear(chunk: string, rest: string, name: string, i: nat)
    requires StarFree(chunk)
  {
    i <= |name| && NoSlash(name[..i]) && FoundAt(chunk, rest, name, i)
  }

  lemma {:induction false} FoundShift(chunk: string, rest: string, name: string, i: nat)
    requires StarFree(chunk) && name != "" && name[0] != '/' && FoundClear(chunk, rest, name[1..], i)
    ensures FoundClear(chunk, rest, name, i + 1)
  {
    var w := Width(chunk).value;
    assert name[..i + 1] == [name[0]] + name[1..][..i] && name[1..][i..] == name[i + 1..];
    assert name[1..][i + w..] == name[i + 1 + w..];
  }

  /** A search after a star finds only what the pattern means. */
  lemma {:induction false} LaterSound(chunk: string, rest: string, name: string) returns (i: nat)
    requires chunk != "" && StarFree(chunk) && MatchLater(chunk, rest, name)
    requires forall t :: Match(rest, t) ==> Means(rest, t)
    ensures FoundClear(chunk, rest, name, i)
    decreases |name|
  {
    ChunkMatches(chunk, name[1..]);
    var hit := MatchChunk(chunk, name[1..], false);
    if hit.Hit? && !(rest == "" && hit.rest != "") {
      i := 0;
      assert name[1..][0..] == name[1..] && name[1..][..0] == "";
      assert FoundClear(chunk, rest, name[1..], 0);
    } else {
      i := LaterSound(chunk, rest, name[1..]);
    }
    FoundShift(chunk, rest, name, i);
    i := i + 1;
  }

  lemma {:induction false} FoundMeans(body: string, name: string, i: nat)
    requires (body == "" || body[0] != '*') && i <= |name|
    ensures var n := ChunkEnd(body, 0, false);
            StarFree(body[..n]) && (FoundAt(body[..n], body[n..], name, i) <==> Means(body, name[i..]))
  {
    var n := ChunkEnd(body, 0, false);
    ChunkMeans(body, name[i..]);
    if Width(body[..n]).Some? && Width(body[..n]).value <= |name| - i {
      assert name[i..][Width(body[..n]).value..] == name[i + Width(body[..n]).value..];
    }
  }

  /** Soundness: whatever is matched is meant. */
  lemma {:induction false} MatchSound(p: string, name: string)
    requires Match(p, name)
    ensures Means(p, name)
    decreases |p|
  {
    if p != "" {
      SkipStarsShrinks(p);
      var star, body := p[0] == '*', SkipStars(p);
      var n := ChunkEnd(body, 0, false);
      var chunk, rest := body[..n], body[n..];
      FoundMeans(body, name, 0);
      assert name[0..] == name && name[..0] == "";
      if star { StarsMean(p, name); }
      if star && chunk == "" {
        assert body == "" && name[..|name|] == name && name[|name|..] == "";
        assert StarAt(body, name, |name|);
      } else {
        ChunkMatches(chunk, name);
        var hit := MatchChunk(chunk, name, false);
        if hit.Hit? && (hit.rest == "" || rest != "") {
          MatchSound(rest, hit.rest);
          assert FoundAt(chunk, rest, name, 0);
          if star { assert StarAt(body, name, 0); }
        } else {
          forall t | Match(rest, t) ensures Means(rest, t) { MatchSound(rest, t); }
          var i := LaterSound(chunk, rest, name);
          FoundMeans(body, name, i);
          assert StarAt(body, name, i);
        }
      }
    }
  }

  // ---------------------------------------------------------------- completeness

  /** Of the elements of the pattern only a slash itself admits a slash. */
  predicate SlashStrict(p: string)
    decreases |p|
  {
    if p == "" then true
    else if p[0] == '*' then SlashStrict(p[1..])
    else (p[0] == '[' ==> !Fits(p, '/')) && (Rest(p).Some? ==> SlashStrict(Rest(p).value))
  }

  /** Element `o` of a chunk admits the character. */
  predicate FitsAt(p: string, o: nat, c: char)
    requires StarFree(p)
    decreases |p|
  {
    p != "" && Rest(p).Some? && if o == 0 then Fits(p, c) else FitsAt(Rest(p).value, o - 1, c)
  }

  lemma {:induction false} SpellsAt(p: string, s: string, o: nat)
    requires StarFree(p) && Spells(p, s) && Width(p).Some? && o < Width(p).value
    ensures o < |s| && FitsAt(p, o, s[o])
    decreases |p|
  {
    if o > 0 {
      SpellsAt(Rest(p).value, s[1..], o - 1);
    }
  }

  /** In a strict chunk an element that admits a slash admits nothing else. */
  lemma {:induction false} SlashOnly(p: string, o: nat, c: char)
    requires StarFree(p) && SlashStrict(p) && FitsAt(p, o, '/') && FitsAt(p, o, c)
    ensures c == '/'
    decreases |p|
  {
    if o > 0 { SlashOnly(Rest(p).value, o - 1, c); }
  }

  /** A chunk that can be spelled at `j` and later at `i`, with no slash before `i`: there is none between
      the two ends either, because a slash in the later place forces one earlier and earlier. */
  lemma {:induction false} NoSlashBetween(chunk: string, name: string, j: nat, i: nat, q: nat)
    requires StarFree(chunk) && Width(chunk).Some? && (SlashStrict(chunk) || NoSlash(name))
    requires j < i <= |name| && NoSlash(name[..i]) && Spells(chunk, name[j..]) && Spells(chunk, name[i..])
    requires q < i + Width(chunk).value && q < |name|
    ensures name[q] != '/'
    decreases q
  {
    if q < i {
      assert name[..i][q] == name[q];
    } else if name[q] == '/' {
      var o := q - i;
      SpellsAt(chunk, name[i..], o);
      SpellsAt(chunk, name[j..], o);
      assert name[i..][o] == name[q] && name[j..][o] == name[j + o];
      SlashOnly(chunk, o, name[j + o]);
      NoSlashBetween(chunk, name, j, i, j + o);
    }
  }

  lemma {:induction false} GapClear(chunk: string, name: string, j: nat, i: nat)
    requires StarFree(chunk) && Width(chunk).Some? && (SlashStrict(chunk) || NoSlash(name))
    requires j < i <= |name| && NoSlash(name[..i]) && Spells(chunk, name[j..]) && Spells(chunk, name[i..])
    requires i + Width(chunk).value <= |name|
    ensures NoSlash(name[j + Width(chunk).value..][..i - j])
  {
    var w := Width(chunk).value;
    var gap := name[j + w..][..i - j];
    forall q | 0 <= q < |gap| ensures gap[q] != '/' {
      NoSlashBetween(chunk, name, j, i, j + w + q);
      assert gap[q] == name[j + w + q];
    }
  }

  /** So a star after the chunk reaches from the earlier end to the later one. */
  lemma {:induction false} EarlierServes(chunk: string, rest: string, name: string, j: nat, i: nat)
    requires StarFree(chunk) && (SlashStrict(chunk) || NoSlash(name)) && rest != "" && rest[0] == '*'
    requires j < i <= |name| && NoSlash(name[..i]) && FoundAt(chunk, rest, name, i) && Spells(chunk, name[j..])
    ensures FoundAt(chunk, rest, name, j)
  {
    var w := Width(chunk).value;
    GapClear(chunk, name, j, i);
    StarReaches(rest, name, j + w, i + w);
  }

  lemma {:induction false} StarReaches(rest: string, name: string, a: nat, b: nat)
    requires rest != "" && rest[0] == '*' && a <= b <= |name| && NoSlash(name[a..][..b - a]) && Means(rest, name[b..])
    ensures Means(rest, name[a..])
  {
    StarsMean(rest, name[b..]);
    StarsMean(rest, name[a..]);
    assert name[a..][b - a..] == name[b..];
    var m: nat :| StarAt(SkipStars(rest), name[b..], m);
    StarTwice(SkipStars(rest), name[a..], b - a, m);
  }

  /** The search after a star finds a place if there is one. */
  lemma {:induction false} LaterComplete(chunk: string, rest: string, name: string, i: nat, strict: bool)
    requires chunk != "" && StarFree(chunk) && (rest == "" || rest[0] == '*') && 0 < i <= |name| && NoSlash(name[..i])
    requires FoundAt(chunk, rest, name, i) && if strict then SlashStrict(chunk) else NoSlash(name)
    requires forall t :: Means(rest, t) && (strict || NoSlash(t)) ==> Match(rest, t)
    ensures MatchLater(chunk, rest, name)
    decreases |name|
  {
    assert name[..i][0] == name[0];
    var w := Width(chunk).value;
    ChunkMatches(chunk, name[1..]);
    if Spells(chunk, name[1..]) && (rest != "" || 1 + w == |name|) {
      FoundAtFirst(chunk, rest, name, 1, i, strict);
      assert name[1..][w..] == name[1 + w..];
    } else {
      assert i > 1;
      assert name[1..][..i - 1] == name[..i][1..] && name[1..][i - 1..] == name[i..];
      assert name[1..][i - 1 + w..] == name[i + w..];
      assert FoundAt(chunk, rest, name[1..], i - 1);
      LaterComplete(chunk, rest, name[1..], i - 1, strict);
    }
  }

  /** The first place at which the chunk is spelled serves as well as any later one. */
  lemma {:induction false} FoundAtFirst(chunk: string, rest: string, name: string, j: nat, i: nat, strict: bool)
    requires StarFree(chunk) && (rest == "" || rest[0] == '*') && j <= i <= |name| && NoSlash(name[..i])
    requires FoundAt(chunk, rest, name, i) && if strict then SlashStrict(chunk) else NoSlash(name)
    requires forall t :: Means(rest, t) && (strict || NoSlash(t)) ==> Match(rest, t)
    requires Spells(chunk, name[j..]) && (rest == "" ==> j + Width(chunk).value == |name|)
    ensures j + Width(chunk).value <= |name| && Match(rest, name[j + Width(chunk).value..])
  {
    var w := Width(chunk).value;
    if rest == "" {
      assert name[j + w..] == "";
    } else if j < i {
      EarlierServes(chunk, rest, name, j, i);
    }
    assert NoSlash(name) ==> NoSlash(name[j + w..]);
  }

  lemma {:induction false} MalformedFitsNothing(p: string, c: char)
    requires p != "" && p[0] == '[' && Rest(p).None?
    ensures !Fits(p, c)
  {
    RangesEnd(if |p| > 1 && p[1] == '^' then p[2..] else p[1..], '\0', c, false, false, false);
  }

  /** The parts of a strict pattern that does not start with a star. */
  ghost predicate PartsStrict(p: string) {
    var n := ChunkEnd(p, 0, false);
    n <= |p| && StarFree(p[..n]) && SlashStrict(p[..n]) && (Width(p[..n]).Some? ==> SlashStrict(p[n..]))
  }

  lemma {:induction false} ElementStrict(p: string)
    requires p != "" && p[0] != '*' && SlashStrict(p) && Rest(p).Some?
    requires (Rest(p).value != "" && Rest(p).value[0] == '*') || PartsStrict(Rest(p).value)
    ensures PartsStrict(p)
  {
    var n, rest := ChunkEnd(p, 0, false), Rest(p).value;
    var k := |p| - |rest|;
    CutElement(p, n);
    ChunkMeans(p, "");
    ScanElement(p);
    assert p[n..] == rest[n - k..];
    if rest != "" && rest[0] == '*' { assert rest[..0] == "" && rest[0..] == rest; }
  }

  lemma {:induction false} StrictParts(p: string)
    requires SlashStrict(p) && (p == "" || p[0] != '*')
    ensures PartsStrict(p)
    decreases |p|
  {
    if p != "" {
      if Rest(p).Some? {
        var rest := Rest(p).value;
        if rest == "" || rest[0] != '*' { StrictParts(rest); }
        ElementStrict(p);
      } else {
        var n := ChunkEnd(p, 0, false);
        CutElement(p, n);
        if p[0] == '[' { MalformedFitsNothing(p[..n], '/'); }
      }
    }
  }

  lemma {:induction false} StrictBody(p: string)
    requires SlashStrict(p)
    ensures SlashStrict(SkipStars(p))
    decreases |p|
  {
    if p != "" && p[0] == '*' { StrictBody(p[1..]); }
  }

  /** One step of the search, given that the rest of the pattern is matched wherever it is meant. */
  lemma {:induction false} SearchComplete(p: string, name: string, i: nat, strict: bool)
    requires p != "" && (if strict then SlashStrict(p) else NoSlash(name))
    requires var body := SkipStars(p);
             var n := ChunkEnd(body, 0, false);
             && body[..n] != "" && StarFree(body[..n]) && (strict ==> SlashStrict(body[..n]))
             && (body[n..] == "" || body[n] == '*')
             && i <= |name| && (p[0] != '*' ==> i == 0) && NoSlash(name[..i]) && FoundAt(body[..n], body[n..], name, i)
             && forall t :: Means(body[n..], t) && (strict || NoSlash(t)) ==> Match(body[n..], t)
    ensures Match(p, name)
  {
    SkipStarsShrinks(p);
    var body := SkipStars(p);
    var n := ChunkEnd(body, 0, false);
    var chunk, rest := body[..n], body[n..];
    ChunkMatches(chunk, name);
    assert name[0..] == name;
    var w := Width(chunk).value;
    if Spells(chunk, name) && (rest != "" || w == |name|) {
      FoundAtFirst(chunk, rest, name, 0, i, strict);
    } else {
      assert i > 0;
      LaterComplete(chunk, rest, name, i, strict);
    }
  }

  lemma {:induction false} MatchComplete(p: string, name: string, strict: bool)
    requires Means(p, name) && if strict then SlashStrict(p) else NoSlash(name)
    ensures Match(p, name)
    decreases |p|
  {
    if p != "" {
      SkipStarsShrinks(p);
      var body := SkipStars(p);
      var n := ChunkEnd(body, 0, false);
      var i: nat := 0;
      assert name[..0] == "" && name[0..] == name;
      if p[0] == '*' {
        StarsMean(p, name);
        i :| StarAt(body, name, i);
      }
      if body == "" {
        assert name[i..] == "" && name[..i] == name;
      } else {
        FoundMeans(body, name, i);
        ChunkMeans(body, name[i..]);
        if strict {
          StrictBody(p);
          StrictParts(body);
        }
        forall t | Means(body[n..], t) && (strict || NoSlash(t)) ensures Match(body[n..], t) {
          MatchComplete(body[n..], t, strict);
        }
        SearchComplete(p, name, i, strict);
      }
    }
  }

  /** A pattern in which only a slash admits a slash, and any pattern on a name without one, is matched
      exactly by the names it means. */
  lemma {:induction false} MatchExact(p: string, name: string)
    requires SlashStrict(p) || NoSlash(name)
    ensures Match(p, name) <==> Means(p, name)
  {
    if Match(p, name) { MatchSound(p, name); }
    if Means(p, name) { MatchComplete(p, name, SlashStrict(p)); }
  }

  /** The class `[/x]`, whatever follows it. */
  lemma {:induction false} SlashOrX(rest: string, c: char)
    ensures var p := "[/x]" + rest;
            Rest(p) == Some(rest) && (Fits(p, c) <==> c == '/' || c == 'x') && ChunkEnd("[/x]*y", 0, false) == 4
  {
    var p, q := "[/x]" + rest, "/x]" + rest;
    assert p[1] == '/' && p[1..] == q && q[1..] == "x]" + rest && q[1..][1..] == "]" + rest;
    forall d ensures Ranges(q, d, false, false) == Some((d == '/' || d == 'x', rest)) {
      var q1, q2 := "x]" + rest, "]" + rest;
      assert q1[1..] == q2 && q2[1..] == rest;
      assert GetEsc(q) == Some(('/', q1)) && Item(q) == Some(('/', '/', q1));
      assert GetEsc(q1) == Some(('x', q2)) && Item(q1) == Some(('x', 'x', q2));
      RangesStep(q, d, false, false);
      RangesStep(q1, d, true, d == '/');
      assert Closes(q2, true) && Ranges(q2, d, true, d == '/' || d == 'x') == Some((d == '/' || d == 'x', rest));
    }
    var all := "[/x]*y";
    assert ChunkEnd(all, 1, true) == ChunkEnd(all, 2, true) == ChunkEnd(all, 3, true) == ChunkEnd(all, 4, false) == 4;
  }

  lemma {:induction false} StarY(name: string)
    requires name == "y" || name == "/y"
    ensures Means("*y", name) <==> name == "y"
  {
    assert "*y"[1..] == "y" && "y"[1..] == "";
    if name == "y" { assert name[1..] == "" && Means("y", name); }
  }

  /** Otherwise the search can miss: it takes the first place for a class that admits a slash, and a star
      cannot then cross the slash a later place would have covered. */
  lemma {:induction false} SearchCanMiss()
    ensures Means("*[/x]*y", "x/y") && !Match("*[/x]*y", "x/y") && !SlashStrict("*[/x]*y")
  {
    var p, body := "*[/x]*y", "[/x]*y";
    assert p[1..] == body && body == "[/x]" + "*y" && body[..4] == "[/x]" && body[4..] == "*y";
    assert "[/x]" == "[/x]" + "";
    SlashOrX("*y", '/');
    SlashOrX("", 'x');
    StarY("y");
    StarY("/y");
    assert "x/y"[1..] == "/y" && "/y"[1..] == "y";
    assert Means(body, "/y");
    assert Means(p, "/y") && Means(p, "x/y");
    if Match("*y", "/y") { MatchSound("*y", "/y"); }
    ChunkStep("[/x]", "x/y", false);
    assert MatchChunk("[/x]", "x/y", false) == Hit("/y");
    assert SkipStars(p) == body;
  }

  // ---------------------------------------------------------------- common shapes

  /** A literal prefix and a star: the names that start with it and go on without a slash. */
  lemma {:induction false} PrefixGrant(prefix: string, name: string)
    requires !Wild(prefix) && '\\' !in prefix
    ensures Match(prefix + "*", name) <==> prefix <= name && NoSlash(name[|prefix|..])
    decreases |prefix|
  {
    PrefixStrict(prefix);
    MatchExact(prefix + "*", name);
    PrefixMeans(prefix, name);
  }

  lemma {:induction false} PrefixStrict(prefix: string)
    requires !Wild(prefix) && '\\' !in prefix
    ensures SlashStrict(prefix + "*")
    decreases |prefix|
  {
    var p := prefix + "*";
    if prefix == "" {
      assert p == "*" && p[1..] == "";
    } else {
      assert p[0] == prefix[0] && p[1..] == prefix[1..] + "*" && prefix[0] in prefix;
      assert forall c :: c in prefix[1..] ==> c in prefix;
      PrefixStrict(prefix[1..]);
    }
  }

  lemma {:induction false} PrefixMeans(prefix: string, name: string)
    requires !Wild(prefix) && '\\' !in prefix
    ensures Means(prefix + "*", name) <==> prefix <= name && NoSlash(name[|prefix|..])
    decreases |prefix|
  {
    var p := prefix + "*";
    if prefix == "" {
      assert p == "*" && p[1..] == "" && name[0..] == name;
      StarMeans(p, name);
      if NoSlash(name) {
        assert name[..|name|] == name && StarAt("", name, |name|);
      }
      if i: nat :| StarAt("", name, i) { assert name[..i] == name; }
    } else {
      assert p[0] == prefix[0] && p[1..] == prefix[1..] + "*" && prefix[0] in prefix;
      assert forall c :: c in prefix[1..] ==> c in prefix;
      if name != "" && name[0] == prefix[0] {
        PrefixMeans(prefix[1..], name[1..]);
        PrefixCons(prefix[0], prefix[1..], name);
        assert prefix == [prefix[0]] + prefix[1..];
        if prefix <= name { assert name[|prefix|..] == name[1..][|prefix[1..]|..]; }
      }
    }
  }
}
