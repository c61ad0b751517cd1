/**
 * The record filter of the ReadRec handler in server.ts: every record of the
 * pack is kept when, for each key of the query, `record[key] == query[key]`.
 */
module Query {
  import opened Common
  import opened JsValues
  import opened Assoc
  import opened RecordStore

  /** The pairs `[key, query[key]]` for `key of Object.keys(query)`. */
  type QueryPairs = Entries<Value>

  /** Object.keys of a string: its indices, each naming a one-character string. */
  function TextPairs(s: string): (ps: QueryPairs)
    ensures |ps| == |s| && forall i :: 0 <= i < |s| ==> ps[i] == (NatText(i), Str([s[i]]))
  {
    seq(|s|, i requires 0 <= i < |s| => (NatText(i), Str([s[i]])))
  }

  /** Object.keys of an array: its indices, each naming its element. */
  function ListPairs(items: seq<Value>): (ps: QueryPairs)
    ensures |ps| == |items| && forall i :: 0 <= i < |items| ==> ps[i] == (NatText(i), items[i])
  {
    seq(|items|, i requires 0 <= i < |items| => (NatText(i), items[i]))
  }

  /**
   * `ps` lists the keys of `q` with their values: every key of an object
   * once, in some order; the indices of a string or an array; nothing for a
   * number, a boolean or null.
   */
  predicate Lists(q: Value, ps: QueryPairs) {
    match q
    case Obj(m) =>
      && Distinct(ps)
      && (forall i :: 0 <= i < |ps| ==> ps[i].0 in m && ps[i].1 == m[ps[i].0])
      && (forall k :: k in m ==> k in Keys(ps))
    case Str(s) => ps == TextPairs(s)
    case List(items) => ps == ListPairs(items)
    case _ => ps == []
  }

  /** A listing of the keys of an object, in some order. */
  ghost function ObjectPairs(m: map<string, Value>): (ps: QueryPairs)
    ensures Lists(Obj(m), ps)
    decreases |m|
  {
    if m == map[] then []
    else
      var k :| k in m;
      var rest := ObjectPairs(m - {k});
      assert Keys(rest + [(k, m[k])]) == Keys(rest) + [k];
      rest + [(k, m[k])]
  }

  /** `Object.keys(query)` followed by `query[key]` for each key; null or undefined throws a TypeError. */
  method ObjectKeys(q: Option<Value>) returns (r: Result<QueryPairs>)
    ensures r.Fail? <==> (q.None? || q.value.Null?)
    ensures r.Fail? ==> r.error == TypeError
    ensures r.Ok? ==> Lists(q.value, r.value)
  {
    match q
    case None => r := Fail(TypeError);
    case Some(Null) => r := Fail(TypeError);
    case Some(Str(s)) => r := Ok(TextPairs(s));
    case Some(List(items)) => r := Ok(ListPairs(items));
    case Some(Obj(m)) =>
      ghost var listing := ObjectPairs(m);
      var ps :| Lists(Obj(m), ps);
      r := Ok(ps);
    case Some(_) => r := Ok([]);
  }

  /** `record[key] == val` for every listed pair. */
  predicate MatchesAll(record: Fields, ps: QueryPairs) {
    forall i :: 0 <= i < |ps| ==> LooseEq(Get(record, ps[i].0), Some(ps[i].1))
  }

  /** What a query asks of a record, stated on the query itself. */
  predicate Satisfies(record: Fields, q: Value) {
    match q
    case Obj(m) => forall k :: k in m ==> LooseEq(Get(record, k), Some(m[k]))
    case Str(s) => forall i :: 0 <= i < |s| ==> LooseEq(Get(record, NatText(i)), Some(Str([s[i]])))
    case List(items) => forall i :: 0 <= i < |items| ==> LooseEq(Get(record, NatText(i)), Some(items[i]))
    case _ => true
  }

  /** Whatever order Object.keys lists them in, matching every pair is the same as satisfying the query. */
  lemma MatchesAllIffSatisfies(record: Fields, q: Value, ps: QueryPairs)
    requires Lists(q, ps)
    ensures MatchesAll(record, ps) <==> Satisfies(record, q)
  {
    if q.Obj? {
      var m := q.fields;
      if MatchesAll(record, ps) {
        forall k | k in m ensures LooseEq(Get(record, k), Some(m[k])) {
          var i := Find(ps, k);
          assert ps[i].0 == k;
        }
      }
    }
  }

  /** The records a query keeps, in pack order. */
  function Matching(records: seq<Fields>, ps: QueryPairs): seq<Fields> {
    if records == [] then []
    else
      var last := records[|records| - 1];
      Matching(records[..|records| - 1], ps) + (if MatchesAll(last, ps) then [last] else [])
  }

  /**
   * The filter loop: `checks` counts the pairs a record matches, and the
   * record is kept when the count reaches the number of keys.
   */
  method FilterRecords(records: seq<Fields>, ps: QueryPairs) returns (out: seq<Fields>)
    ensures out == Matching(records, ps)
  {
    out := [];
    var i := 0;
    while i < |records|
      invariant 0 <= i <= |records|
      invariant out == Matching(records[..i], ps)
    {
      var record := records[i];
      var checks := 0;
      var j := 0;
      while j < |ps|
        invariant 0 <= j <= |ps|
        invariant 0 <= checks <= j
        invariant checks == j <==> MatchesAll(record, ps[..j])
      {
        if LooseEq(Get(record, ps[j].0), Some(ps[j].1)) {
          checks := checks + 1;
        }
        assert ps[..j + 1][..j] == ps[..j];
        j := j + 1;
      }
      assert ps[..j] == ps;
      if checks >= |ps| {
        out := out + [record];
      }
      assert records[..i + 1][..i] == records[..i];
      i := i + 1;
    }
    assert records[..i] == records;
  }

  /** Reference definition: the records that satisfy the query, in pack order. */
  function Kept(records: seq<Fields>, q: Value): seq<Fields> {
    if records == [] then []
    else
      var last := records[|records| - 1];
      Kept(records[..|records| - 1], q) + (if Satisfies(last, q) then [last] else [])
  }

  /** The filter loop returns the same records whatever order Object.keys lists the query's keys in. */
  lemma {:induction false} MatchingIsKept(records: seq<Fields>, q: Value, ps: QueryPairs)
    requires Lists(q, ps)
    ensures Matching(records, ps) == Kept(records, q)
  {
    if records != [] {
      MatchingIsKept(records[..|records| - 1], q, ps);
      MatchesAllIffSatisfies(records[|records| - 1], q, ps);
    }
  }

  /** A record is returned exactly when it is one of the pack's records and it satisfies the query; none is invented. */
  lemma {:induction false} KeptSpec(records: seq<Fields>, q: Value)
    ensures forall r :: r in Kept(records, q) <==> r in records && Satisfies(r, q)
    ensures |Kept(records, q)| <= |records|
  {
    if records != [] {
      var init := records[..|records| - 1];
      KeptSpec(init, q);
      assert records == init + [records[|records| - 1]];
    }
  }

  /** `a` is `b` with some elements left out, the rest in their order. */
  predicate Subsequence(a: seq<Fields>, b: seq<Fields>)
    decreases |b|
  {
    if a == [] then true
    else if b == [] then false
    else (a[|a| - 1] == b[|b| - 1] && Subsequence(a[..|a| - 1], b[..|b| - 1])) || Subsequence(a, b[..|b| - 1])
  }

  /** The records a query keeps come in the pack's order. */
  lemma {:induction false} KeptIsSubsequence(records: seq<Fields>, q: Value)
    ensures Subsequence(Kept(records, q), records)
  {
    if records != [] {
      var init := records[..|records| - 1];
      var last := records[|records| - 1];
      KeptIsSubsequence(init, q);
      var k, ki := Kept(records, q), Kept(init, q);
      if Satisfies(last, q) {
        assert k == ki + [last];
        assert k[..|k| - 1] == ki && k[|k| - 1] == last;
      } else {
        assert k == ki + [];
        assert k == ki;
      }
    }
  }

  /** When no record of the pack occurs twice, neither does any record the query keeps. */
  lemma {:induction false} KeptDistinct(records: seq<Fields>, q: Value)
    requires forall i, j :: 0 <= i < j < |records| ==> records[i] != records[j]
    ensures forall i, j :: 0 <= i < j < |Kept(records, q)| ==> Kept(records, q)[i] != Kept(records, q)[j]
  {
    if records != [] {
      var n := |records| - 1;
      var init := records[..n];
      assert forall i, j :: 0 <= i < j < |init| ==> init[i] != init[j] by {
        forall i, j | 0 <= i < j < |init| ensures init[i] != init[j] {
          assert init[i] == records[i] && init[j] == records[j];
        }
      }
      KeptDistinct(init, q);
      KeptSpec(init, q);
      assert records[n] !in init by {
        forall i | 0 <= i < n ensures init[i] != records[n] {
          assert init[i] == records[i];
        }
      }
    }
  }

  /** The records of a pack whose keys name their records' `$id`s are pairwise distinct, so ReadRec never lists a record twice. */
  lemma PackRecordsDistinct(es: Entries<Fields>)
    requires Distinct(es) && IdsConsistent(es)
    ensures forall i, j :: 0 <= i < j < |Values(es)| ==> Values(es)[i] != Values(es)[j]
  {
    forall i, j | 0 <= i < j < |es| ensures es[i].1 != es[j].1 {
      assert es[i].0 == KeyOf(es[i].1) && es[j].0 == KeyOf(es[j].1);
    }
  }

  /** A query without keys (a number, a boolean, or an empty object, string or array) returns every record, in order. */
  lemma {:induction false} KeylessQueryKeepsAll(records: seq<Fields>, q: Value)
    requires q.Num? || q.Bool? || q == Obj(map[]) || q == Str("") || q == List([])
    ensures Kept(records, q) == records
  {
    if records != [] {
      var init := records[..|records| - 1];
      KeylessQueryKeepsAll(init, q);
      assert records == init + [records[|records| - 1]];
    }
  }
}
