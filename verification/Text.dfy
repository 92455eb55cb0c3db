/** The string operations of the C++ library that the HTTP code relies on. A byte is a `char`. */
module Text {
  import opened Wrappers

  const CRLF := "\r\n"

  predicate At(s: string, pat: string, i: nat) {
    i + |pat| <= |s| && s[i..i + |pat|] == pat
  }

  /** `s.find(pat, i)`: the first occurrence at or after `i`. */
  function Find(s: string, pat: string, i: nat := 0): (r: Option<nat>)
    ensures r.Some? ==> i <= r.value && At(s, pat, r.value) && forall j: nat | i <= j < r.value :: !At(s, pat, j)
    ensures r.None? ==> forall j: nat | i <= j :: !At(s, pat, j)
    decreases |s| - i
  {
    if i + |pat| > |s| then None
    else if At(s, pat, i) then Some(i)
    else if i == |s| then None
    else Find(s, pat, i + 1)
  }

  /** The first occurrence is the only index with that property. */
  lemma FindIs(s: string, pat: string, i: nat, k: nat)
    requires i <= k && At(s, pat, k) && forall j: nat | i <= j < k :: !At(s, pat, j)
    ensures Find(s, pat, i) == Some(k)
  {
  }

  /** An occurrence that lies in a prefix stays the first one when text is appended. */
  lemma FindInPrefix(s: string, t: string, pat: string, i: nat, k: nat)
    requires Find(s, pat, i) == Some(k)
    ensures Find(s + t, pat, i) == Some(k)
  {
    forall j: nat | i <= j <= k ensures At(s + t, pat, j) <==> At(s, pat, j) {
      assert (s + t)[j..j + |pat|] == s[j..j + |pat|];
    }
    FindIs(s + t, pat, i, k);
  }

  predicate StartsWith(s: string, pat: string) {
    pat <= s
  }
}
