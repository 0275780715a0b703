/** Composite string keys: the claim key with its length prefix and the NUL-separated grant key. */
module Keys {

  /** What precedes the first separator, and what follows it, can be read back. */
  lemma {:induction false} SplitUnique(a: string, x: string, b: string, y: string, sep: char)
    requires sep !in a && sep !in b
    requires a + [sep] + x == b + [sep] + y
    ensures a == b && x == y
  {
    var whole := a + [sep] + x;
    assert whole[|a|] == sep && (b + [sep] + y)[|b|] == sep;
    assert forall i :: 0 <= i < |a| ==> whole[i] == a[i];
    assert forall i :: 0 <= i < |b| ==> whole[i] == b[i];
    assert |a| == |b|;
    assert whole[..|a|] == a && whole[..|b|] == b;
    assert whole[|a| + 1..] == x && whole[|b| + 1..] == y;
  }

  // ---------------------------------------------------------------- claim keys

  const DIGITS := "0123456789"

  function Itoa(n: nat): (s: string)
    ensures ':' !in s
  {
    if n < 10 then [DIGITS[n]] else Itoa(n / 10) + [DIGITS[n % 10]]
  }

  lemma {:induction false} ItoaInjective(m: nat, n: nat)
    requires Itoa(m) == Itoa(n)
    ensures m == n
    decreases m
  {
    var s, t := Itoa(m), Itoa(n);
    var last := |s| - 1;
    ItoaShape(m);
    ItoaShape(n);
    assert DigitsDiffer(m % 10, n % 10);
    if m >= 10 && n >= 10 {
      assert s[..last] == Itoa(m / 10) && t[..last] == Itoa(n / 10);
      ItoaInjective(m / 10, n / 10);
    }
  }

  lemma {:induction false} ItoaShape(n: nat)
    ensures |Itoa(n)| >= 1 && Itoa(n)[|Itoa(n)| - 1] == DIGITS[n % 10]
    ensures n < 10 <==> |Itoa(n)| == 1
    decreases n
  {
    if n >= 10 { ItoaShape(n / 10); }
  }

  predicate DigitsDiffer(i: nat, j: nat)
    requires i < 10 && j < 10
  {
    DIGITS[i] == DIGITS[j] ==> i == j
  }

  function ClaimKey(tool: string, key: string): string {
    Itoa(|tool|) + ":" + tool + ":" + key
  }

  /** No two (tool, key) pairs share a claim, whatever characters they contain. */
  lemma {:induction false} ClaimKeyInjective(tool: string, key: string, tool': string, key': string)
    requires ClaimKey(tool, key) == ClaimKey(tool', key')
    ensures tool == tool' && key == key'
  {
    var x, y := tool + ":" + key, tool' + ":" + key';
    assert ClaimKey(tool, key) == Itoa(|tool|) + [':'] + x;
    assert ClaimKey(tool', key') == Itoa(|tool'|) + [':'] + y;
    SplitUnique(Itoa(|tool|), x, Itoa(|tool'|), y, ':');
    ItoaInjective(|tool|, |tool'|);
    assert tool == x[..|tool|] && tool' == y[..|tool'|];
    assert key == x[|tool| + 1..] && key' == y[|tool'| + 1..];
  }

  // ---------------------------------------------------------------- grant keys

  function GrantKey(identity: string, verb: string, scope: string): string {
    identity + "\0" + verb + "\0" + scope
  }

  function Nuls(s: string): nat {
    if s == [] then 0 else Nuls(s[1..]) + if s[0] == '\0' then 1 else 0
  }

  lemma {:induction false} NulsConcat(a: string, b: string)
    ensures Nuls(a + b) == Nuls(a) + Nuls(b)
  {
    if a == [] {
      assert a + b == b;
    } else {
      NulsConcat(a[1..], b);
      assert (a + b)[1..] == a[1..] + b;
    }
  }

  lemma {:induction false} NulsZero(s: string)
    ensures Nuls(s) == 0 <==> '\0' !in s
  {
    if s != [] {
      NulsZero(s[1..]);
      assert s == [s[0]] + s[1..];
    }
  }

  lemma {:induction false} GrantKeyNuls(identity: string, verb: string, scope: string)
    ensures Nuls(GrantKey(identity, verb, scope)) == Nuls(identity) + Nuls(verb) + Nuls(scope) + 2
  {
    NulsConcat(identity + "\0" + verb + "\0", scope);
    NulsConcat(identity + "\0" + verb, "\0");
    NulsConcat(identity + "\0", verb);
    NulsConcat(identity, "\0");
    assert Nuls("\0") == 1;
  }

  /** A lookup with arbitrary, even unvalidated, arguments hits an entry stored under NUL-free
      components only if all three components are equal. */
  lemma {:induction false} GrantKeyUnambiguous(identity: string, verb: string, scope: string, identity': string,
                                               verb': string, scope': string)
    requires '\0' !in identity && '\0' !in verb && '\0' !in scope
    requires GrantKey(identity, verb, scope) == GrantKey(identity', verb', scope')
    ensures identity == identity' && verb == verb' && scope == scope'
  {
    GrantKeyNuls(identity, verb, scope);
    GrantKeyNuls(identity', verb', scope');
    NulsZero(identity); NulsZero(verb); NulsZero(scope);
    NulsZero(identity'); NulsZero(verb'); NulsZero(scope');
    var x, y := verb + "\0" + scope, verb' + "\0" + scope';
    assert GrantKey(identity, verb, scope) == identity + ['\0'] + x;
    assert GrantKey(identity', verb', scope') == identity' + ['\0'] + y;
    SplitUnique(identity, x, identity', y, '\0');
    SplitUnique(verb, scope, verb', scope', '\0');
  }
}
