/**
 * The draft DBPath of drafting.ts. Its DBToken helpers are the same text as
 * those of interface.ts, so they are the functions of module Tokens; the
 * draft DBPath is a plain holder of one `path` field with no accessors.
 */
module Drafting {
  import opened JsStrings
  import Tokens

  datatype DraftPath = DraftPath(path: string)

  /** `new DBPath(s)` of the draft: unwrap `$Path[...]`, otherwise keep `s`. */
  function NewDraftPath(s: string): (p: DraftPath)
    ensures !Tokens.HasToken(Tokens.PathTag, s) ==> p.path == s
    ensures Tokens.HasToken(Tokens.PathTag, s) ==>
      ']' !in p.path && StartsWith(s, Tokens.Opening(Tokens.PathTag) + p.path + "]")
    ensures p.path == Tokens.NewPath(s).path
  {
    if Tokens.HasToken(Tokens.PathTag, s) then
      Tokens.HasTokenHasData(Tokens.PathTag, s);
      var pair := Tokens.GetTokenData(s).value;
      DraftPath(pair.1)
    else
      DraftPath(s)
  }

  /** Wrapping any `p` without `]` as `$Path[p]` gives `p` back. */
  lemma DraftPathRoundTrip(p: string)
    requires ']' !in p
    ensures NewDraftPath(Tokens.Opening(Tokens.PathTag) + p + "]").path == p
  {
    Tokens.PathRoundTrip(p);
  }
}
