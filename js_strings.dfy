/** The JavaScript string methods the token helpers are written with. */
module JsStrings {

  /** `s.startsWith(p)` */
  predicate StartsWith(s: string, p: string) {
    p <= s
  }

  /** `s.endsWith(p)` */
  predicate EndsWith(s: string, p: string) {
    |p| <= |s| && s[|s| - |p|..] == p
  }

  /** `s.indexOf(c)` for a one-character needle: the first position of `c`, or -1. */
  function IndexOf(s: string, c: char): (r: int)
    ensures -1 <= r < |s|
    ensures r == -1 <==> c !in s
    ensures r >= 0 ==> s[r] == c && c !in s[..r]
  {
    IndexFrom(s, c, 0)
  }

  /** The scan behind indexOf, from position `k` on. */
  function IndexFrom(s: string, c: char, k: nat): (r: int)
    requires k <= |s| && c !in s[..k]
    ensures -1 <= r < |s|
    ensures r == -1 <==> c !in s
    ensures r >= 0 ==> k <= r && s[r] == c && c !in s[..r]
    decreases |s| - k
  {
    if k == |s| then
      assert s[..k] == s;
      -1
    else if s[k] == c then k
    else
      assert s[..k + 1] == s[..k] + [s[k]];
      IndexFrom(s, c, k + 1)
  }

  /** indexOf finds the first occurrence: it is no later than any occurrence. */
  lemma IndexOfFirst(s: string, c: char, k: nat)
    requires k < |s| && s[k] == c
    ensures 0 <= IndexOf(s, c) <= k
  {
  }

  /** When `c` is not among the first `i` characters, indexOf is -1 or at least `i`. */
  lemma IndexOfAfter(s: string, c: char, i: nat)
    requires i <= |s| && c !in s[..i]
    ensures IndexOf(s, c) == -1 || IndexOf(s, c) >= i
  {
  }

  /** A prefix ending at position `b`, cut at `a`. */
  lemma PrefixSplit(s: string, a: nat, b: nat)
    requires a <= b < |s|
    ensures s[..b + 1] == s[..a] + s[a..b] + [s[b]]
  {
    assert s[..b + 1] == s[..b] + [s[b]];
    assert s[..b] == s[..a] + s[a..b];
  }

  function Clamp(i: int, n: nat): (r: nat)
    ensures r <= n
  {
    if i < 0 then 0 else if i > n then n else i
  }

  /**
   * `s.substring(a, b)`: both ends are clamped to the string, and when the
   * start lies after the end the two are swapped.
   */
  function Substring(s: string, a: int, b: int): string
  {
    var lo, hi := Clamp(a, |s|), Clamp(b, |s|);
    if lo <= hi then s[lo..hi] else s[hi..lo]
  }

  /** Within bounds and in order, substring is the plain slice. */
  lemma SubstringSlice(s: string, a: int, b: int)
    requires 0 <= a <= b <= |s|
    ensures Substring(s, a, b) == s[a..b]
  {
    assert Clamp(a, |s|) == a && Clamp(b, |s|) == b;
  }
}
