/**
 * Identifiers drawn by the `randomID(prefix)` helper of an external library.
 * The model draws them nondeterministically: any string with the prefix that
 * is not already in use.
 */
module RandomIds {
  import opened JsStrings

  predicate IsFreshId(id: string, prefix: string, used: set<string>) {
    StartsWith(id, prefix) && id !in used
  }

  ghost function MaxLength(used: set<string>): (n: nat)
    ensures forall s :: s in used ==> |s| <= n
    decreases used
  {
    if used == {} then 0
    else
      var x :| x in used;
      var rest := MaxLength(used - {x});
      if |x| > rest then |x| else rest
  }

  function Padding(n: nat): (s: string)
    ensures |s| == n
  {
    if n == 0 then "" else Padding(n - 1) + "0"
  }

  /** However many identifiers are in use, a fresh one with the prefix exists. */
  lemma FreshIdExists(prefix: string, used: set<string>)
    ensures exists id :: IsFreshId(id, prefix, used)
  {
    var id := prefix + Padding(MaxLength(used) + 1);
    assert StartsWith(id, prefix);
    assert |id| > MaxLength(used);
    assert id !in used;
    assert IsFreshId(id, prefix, used);
  }
}
