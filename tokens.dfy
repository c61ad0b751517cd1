/**
 * Tagged strings `$Kind[value]` (interface.ts, class DBToken) and the path
 * wrapper DBPath built on them.
 */
module Tokens {
  import opened Common
  import opened JsStrings

  /** The text a token of kind `token` opens with: `$` + token + `[`. */
  function Opening(token: string): string {
    "$" + token + "["
  }

  /** `DBToken.hasToken(token, s)`. */
  predicate HasToken(token: string, s: string)
    ensures HasToken(token, s) ==> |s| >= |token| + 3 && s[0] == '$' && s[|token| + 1] == '[' && s[|s| - 1] == ']'
  {
    var o := Opening(token);
    assert |o| == |token| + 2 && o[0] == '$' && o[|token| + 1] == '[';
    StartsWith(s, o) && EndsWith(s, "]")
  }

  /** The first `[` of a string that holds one. */
  function FirstOpen(s: string): (i: nat)
    requires '[' in s
    ensures i < |s| && s[i] == '[' && '[' !in s[..i]
  {
    IndexOf(s, '[')
  }

  /**
   * `DBToken.getTokenData(s)`: `[key, value]` when `s` starts with `$`,
   * ends with `]` and holds a `[`, otherwise `null`. The key runs from after
   * the `$` to the first `[`; the value is `substring` between the first `[`
   * and the first `]`, which swaps its ends when that `]` comes first.
   */
  function GetTokenData(s: string): (r: Option<(string, string)>)
    ensures r.Some? <==> |s| > 0 && s[0] == '$' && s[|s| - 1] == ']' && '[' in s
    ensures r.Some? ==> '[' !in r.value.0 && StartsWith(s, Opening(r.value.0))
    ensures r.Some? && ']' !in s[..FirstOpen(s)] ==>
      ']' !in r.value.1 && StartsWith(s, Opening(r.value.0) + r.value.1 + "]")
    ensures r.Some? && ']' in s[..FirstOpen(s)] ==>
      && 0 <= IndexOf(s, ']') < FirstOpen(s) && s[IndexOf(s, ']')] == ']'
      && r.value.1 == s[IndexOf(s, ']')..FirstOpen(s) + 1]
  {
    if StartsWith(s, "$") && EndsWith(s, "]") && '[' in s then
      TokenParts(s);
      Some((Substring(s, IndexOf(s, '$') + 1, FirstOpen(s)), Substring(s, FirstOpen(s) + 1, IndexOf(s, ']'))))
    else
      None
  }

  /** What the two `substring` calls of getTokenData cut out of an accepted string. */
  lemma TokenParts(s: string)
    requires StartsWith(s, "$") && EndsWith(s, "]") && '[' in s
    ensures var i := FirstOpen(s);
      var key := Substring(s, IndexOf(s, '$') + 1, i);
      var value := Substring(s, i + 1, IndexOf(s, ']'));
      && '[' !in key && StartsWith(s, Opening(key))
      && (']' !in s[..i] ==> ']' !in value && StartsWith(s, Opening(key) + value + "]"))
      && (']' in s[..i] ==> 0 <= IndexOf(s, ']') < i && s[IndexOf(s, ']')] == ']' && value == s[IndexOf(s, ']')..i + 1])
  {
    TokenKey(s);
    TokenValue(s);
  }

  /** The key runs from after the leading `$` up to the first `[`. */
  lemma TokenKey(s: string)
    requires StartsWith(s, "$") && '[' in s
    ensures var i := IndexOf(s, '[');
      i >= 1 && Substring(s, IndexOf(s, '$') + 1, i) == s[1..i] && Opening(s[1..i]) == s[..i + 1]
  {
    var i := IndexOf(s, '[');
    assert s[..1] == "$";
    assert IndexOf(s, '$') == 0;
    assert s[i] == '[' && [s[i]] == "[";
    SubstringSlice(s, 1, i);
    PrefixSplit(s, 1, i);
    assert s[..i + 1] == "$" + s[1..i] + "[";
  }

  /** The value lies between the first `[` and the first `]`, ends swapped when the `]` comes first. */
  lemma TokenValue(s: string)
    requires StartsWith(s, "$") && EndsWith(s, "]") && '[' in s
    ensures var i, j := IndexOf(s, '['), IndexOf(s, ']');
      var value := Substring(s, i + 1, j);
      && (']' !in s[..i] ==> i < j && value == s[i + 1..j] && s[..i + 1] + value + "]" == s[..j + 1])
      && (']' in s[..i] ==> 0 <= j < i && value == s[j..i + 1])
  {
    assert s[|s| - 1] == s[|s| - 1..][0] == ']';
    if ']' in s[..IndexOf(s, '[')] {
      SwappedCase(s);
    } else {
      OrderedCase(s);
    }
  }

  /** No `]` before the first `[`: the value is the slice up to the first `]`, which the last character guarantees. */
  lemma OrderedCase(s: string)
    requires '[' in s && s[|s| - 1] == ']' && ']' !in s[..IndexOf(s, '[')]
    ensures var i, j := IndexOf(s, '['), IndexOf(s, ']');
      i < j && Substring(s, i + 1, j) == s[i + 1..j] && s[..i + 1] + Substring(s, i + 1, j) + "]" == s[..j + 1]
  {
    var i, j := IndexOf(s, '['), IndexOf(s, ']');
    IndexOfFirst(s, ']', |s| - 1);
    IndexOfAfter(s, ']', i);
    assert i < j && s[j] == ']';
    OrderedValue(s, i, j);
  }

  /** A `]` before the first `[`: substring swaps its ends and the value runs from that `]` to the `[`. */
  lemma SwappedCase(s: string)
    requires '[' in s && ']' in s[..IndexOf(s, '[')]
    ensures var i, j := IndexOf(s, '['), IndexOf(s, ']'); 0 <= j < i && Substring(s, i + 1, j) == s[j..i + 1]
  {
    var i := IndexOf(s, '[');
    var k :| 0 <= k < i && s[..i][k] == ']';
    SwappedValue(s, i, k);
  }

  lemma OrderedValue(s: string, i: nat, j: nat)
    requires i < j < |s| && s[j] == ']'
    ensures Substring(s, i + 1, j) == s[i + 1..j] && s[..i + 1] + Substring(s, i + 1, j) + "]" == s[..j + 1]
  {
    SubstringSlice(s, i + 1, j);
    PrefixSplit(s, i + 1, j);
    assert [s[j]] == "]";
  }

  lemma SwappedValue(s: string, i: nat, k: nat)
    requires i < |s| && k < i && s[k] == ']'
    ensures var j := IndexOf(s, ']'); 0 <= j < i && Substring(s, i + 1, j) == s[j..i + 1]
  {
    IndexOfFirst(s, ']', k);
  }

  /** Once `s` carries the token `t`, getTokenData accepts it; for a `t` without `[` the key is `t`. */
  lemma HasTokenHasData(t: string, s: string)
    requires HasToken(t, s)
    ensures |s| >= |t| + 3
    ensures GetTokenData(s).Some?
    ensures '[' !in t ==> GetTokenData(s).value.0 == t
  {
    assert s[|t| + 1] == '[';
    assert '[' in s;
    if '[' !in t {
      OpeningUnique(t, GetTokenData(s).value.0, s);
    }
  }

  /** Two bracket-free kinds that both open the same string are the same kind. */
  lemma OpeningUnique(t: string, key: string, s: string)
    requires '[' !in t && '[' !in key
    requires StartsWith(s, Opening(t)) && StartsWith(s, Opening(key))
    ensures key == t
  {
    var a, b := Opening(t), Opening(key);
    assert a <= s && b <= s;
    // both kinds end where the first `[` of s sits
    assert s[..|t| + 1] == a[..|t| + 1] && s[..|key| + 1] == b[..|key| + 1];
    IndexOfFirst(s, '[', |t| + 1);
    IndexOfAfter(s, '[', |t| + 1);
    IndexOfFirst(s, '[', |key| + 1);
    IndexOfAfter(s, '[', |key| + 1);
    assert key == b[1..|key| + 1] == s[1..|key| + 1] == a[1..|t| + 1] == t;
  }

  /** Wrapping then unwrapping gives back kind and value, as long as neither bracket leaks into them. */
  lemma TokenRoundTrip(t: string, v: string)
    requires '[' !in t && ']' !in t && ']' !in v
    ensures HasToken(t, Opening(t) + v + "]")
    ensures GetTokenData(Opening(t) + v + "]") == Some((t, v))
  {
    var s := Opening(t) + v + "]";
    assert s[..|t| + 2] == Opening(t);
    HasTokenHasData(t, s);
    OpeningAt(t, s);
    var value := GetTokenData(s).value.1;
    assert Opening(t) + value + "]" <= Opening(t) + v + "]";
    ClosedUnique(Opening(t), value, v);
  }

  /** In a string opening with `$t[` for a bracket-free `t`, the first `[` closes the kind and no `]` comes before it. */
  lemma OpeningAt(t: string, s: string)
    requires '[' !in t && ']' !in t && StartsWith(s, Opening(t))
    ensures '[' in s && FirstOpen(s) == |t| + 1 && ']' !in s[..FirstOpen(s)]
  {
    var o := Opening(t);
    assert s[..|t| + 2] == o;
    assert s[|t| + 1] == o[|t| + 1] == '[';
    assert s[..|t| + 1] == o[..|t| + 1] == "$" + t;
    IndexOfFirst(s, '[', |t| + 1);
    IndexOfAfter(s, '[', |t| + 1);
  }

  /** Two `]`-free values closed by `]` after the same opening, one a prefix of the other, are equal. */
  lemma ClosedUnique(o: string, a: string, b: string)
    requires ']' !in a && ']' !in b && o + a + "]" <= o + b + "]"
    ensures a == b
  {
    var x, y := a + "]", b + "]";
    assert o + a + "]" == o + x && o + b + "]" == o + y;
    assert x == (o + x)[|o|..] && y[..|x|] == (o + y)[|o|..|o| + |x|];
    assert x <= y && y[|a|] == x[|a|] == ']' && y[..|b|] == b;
    IndexOfFirst(y, ']', |a|);
    IndexOfAfter(y, ']', |b|);
    assert a == x[..|a|] == y[..|b|] == b;
  }

  /** A `]` inside the kind breaks the round trip: the value is read between the wrong brackets. */
  lemma KindWithBracketBreaksRoundTrip()
    ensures GetTokenData(Opening("a]b") + "c" + "]") == Some(("a]b", "]b["))
  {
    var s := Opening("a]b") + "c" + "]";
    assert s == "$a]b[c]";
    assert s[4] == '[' && s[..4] == "$a]b";
    assert s[2] == ']' && s[..2] == "$a";
    IndexOfFirst(s, '[', 4);
    IndexOfAfter(s, '[', 4);
    IndexOfFirst(s, ']', 2);
    IndexOfAfter(s, ']', 2);
    assert s[1..4] == "a]b" && s[2..5] == "]b[";
  }

  /** `DBPath.token`. */
  const PathTag := "Path"

  /**
   * A DBPath: the constructor stores the unwrapped path and passes the same
   * string to DBToken, so the token's data and the path coincide.
   */
  datatype DBPath = DBPath(path: string) {
    /** DBToken.data */
    function Data(): string { path }
    function ToString(): string { path }
    function ValueOf(): string { path }
    function ToJSON(): string { path }
  }

  /** `new DBPath(s)`: unwrap `$Path[...]`, keep any other string as it is. */
  function NewPath(s: string): (p: DBPath)
    ensures !HasToken(PathTag, s) ==> p.path == s
    ensures HasToken(PathTag, s) ==>
      ']' !in p.path && StartsWith(s, Opening(PathTag) + p.path + "]")
    ensures p.Data() == p.ToString() == p.ValueOf() == p.ToJSON() == p.path
  {
    if HasToken(PathTag, s) then
      PathTokenData(s);
      DBPath(GetTokenData(s).value.1)
    else
      DBPath(s)
  }

  /** The data of a `$Path[...]` string holds no `]` and closes the token. */
  lemma PathTokenData(s: string)
    requires HasToken(PathTag, s)
    ensures GetTokenData(s).Some? && GetTokenData(s).value.0 == PathTag
    ensures var v := GetTokenData(s).value.1; ']' !in v && StartsWith(s, Opening(PathTag) + v + "]")
  {
    HasTokenHasData(PathTag, s);
    OpeningAt(PathTag, s);
  }

  /** Any path without `]`, wrapped as a `$Path[...]` token, is recovered by DBPath. */
  lemma PathRoundTrip(p: string)
    requires ']' !in p
    ensures NewPath(Opening(PathTag) + p + "]").ToString() == p
  {
    TokenRoundTrip(PathTag, p);
  }
}
