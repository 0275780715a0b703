/** The text checks the components share. Lengths count characters. */
module Text {

  predicate IsSpace(c: char) {
    c in " \t\n\r" || c in "\U{0B}\U{0C}\U{85}\U{A0}\U{1680}\U{2028}\U{2029}\U{202F}\U{205F}\U{3000}"
    || '\U{2000}' <= c <= '\U{200A}'
  }

  predicate IsControl(c: char) {
    c < ' ' || '\U{7F}' <= c <= '\U{9F}'
  }

  predicate HasControl(s: string) {
    exists i :: 0 <= i < |s| && IsControl(s[i])
  }

  function Trim(s: string): string {
    if s == "" then ""
    else if IsSpace(s[0]) then Trim(s[1..])
    else if IsSpace(s[|s| - 1]) then Trim(s[..|s| - 1])
    else s
  }

  predicate Blank(s: string) {
    forall i :: 0 <= i < |s| ==> IsSpace(s[i])
  }

  /** Non-empty and without surrounding white space. */
  predicate Trimmed(s: string) {
    s != "" && !IsSpace(s[0]) && !IsSpace(s[|s| - 1])
  }

  lemma {:induction false} TrimShortens(s: string)
    ensures |Trim(s)| <= |s|
    decreases |s|
  {
    if s != "" { TrimShortens(s[1..]); TrimShortens(s[..|s| - 1]); }
  }

  /** Trimming leaves a text unchanged and non-empty exactly when it was trimmed, and leaves
      nothing exactly when it was blank. */
  lemma {:induction false} TrimExact(s: string)
    ensures Trimmed(s) <==> Trim(s) != "" && Trim(s) == s
    ensures Trim(s) == "" <==> Blank(s)
    decreases |s|
  {
    if s != "" {
      TrimShortens(s[1..]);
      TrimShortens(s[..|s| - 1]);
      if IsSpace(s[0]) {
        TrimExact(s[1..]);
        assert s == [s[0]] + s[1..];
      } else if IsSpace(s[|s| - 1]) {
        TrimExact(s[..|s| - 1]);
      }
    }
  }
}
