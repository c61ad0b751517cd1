/**
 * What DBPack's record operations and DBIndex.processPack compute, stated on
 * values: a pack's records are an insertion-ordered list of (key, record).
 * The classes of module Database are proved against these functions.
 */
module RecordStore {
  import opened Common
  import opened JsValues
  import opened Assoc
  import opened JsStrings
  import opened RandomIds
  import opened Shapes

  /** The identity field of a record. */
  const IdField := "$id"
  /** `DBPack.RecordIDPrefix` */
  const RecordPrefix := "Rec-"

  /** `record.$id` */
  function IdOf(r: Fields): Option<Value> {
    Get(r, IdField)
  }

  /** The key `records[record.$id] = record` stores a record under: `String(record.$id)`. */
  function KeyOf(r: Fields): string {
    StringOf(IdOf(r))
  }

  /** Every record sits under the key its own `$id` names; createRecord and deleteRecord keep this. */
  ghost predicate IdsConsistent(es: Entries<Fields>) {
    forall i :: 0 <= i < |es| ==> es[i].0 == KeyOf(es[i].1)
  }

  // ---------------------------------------------------------------- createRecord

  /**
   * The record createRecord works on: a string argument goes through
   * JSON.parse (its error is rethrown), an object is used as it is, and any
   * other argument throws a TypeError when `$id` is read or written on it.
   */
  function RecordFrom(data: Option<Value>, parse: string -> Result<Value>): (r: Result<Fields>)
    ensures data.Some? && data.value.Obj? ==> r == Ok(data.value.fields)
    ensures data.Some? && data.value.Str? && parse(data.value.s).Fail? ==> r == Fail(parse(data.value.s).error)
    ensures data.Some? && data.value.Str? && parse(data.value.s).Ok? ==>
      r == (if parse(data.value.s).value.Obj? then Ok(parse(data.value.s).value.fields) else Fail(TypeError))
    ensures (data.None? || !(data.value.Obj? || data.value.Str?)) ==> r == Fail(TypeError)
  {
    match data
    case Some(Str(text)) =>
      (match parse(text)
       case Fail(e) => Fail(e)
       case Ok(Obj(m)) => Ok(m)
       case Ok(_) => Fail(TypeError))
    case Some(Obj(m)) => Ok(m)
    case _ => Fail(TypeError)
  }

  /** The record createRecord stores: a truthy `$id` is kept, otherwise the drawn id is written into `$id`. */
  function Stored(input: Fields, drawn: string): (rec: Fields)
    ensures drawn != "" ==> Truthy(IdOf(rec))
    ensures Truthy(IdOf(input)) ==> rec == input
    ensures !Truthy(IdOf(input)) ==> KeyOf(rec) == drawn && rec - {IdField} == input - {IdField}
  {
    if Truthy(IdOf(input)) then input else input[IdField := Str(drawn)]
  }

  /** A `Rec-` id that no record of the pack is stored under. */
  predicate FreshRecordKey(id: string, es: Entries<Fields>) {
    IsFreshId(id, RecordPrefix, set k | k in Keys(es))
  }

  /** `records[rec.$id] = rec` */
  function Insert(es: Entries<Fields>, rec: Fields): Entries<Fields> {
    Put(es, KeyOf(rec), rec)
  }

  /** An id `randomID("Rec-")` can return. */
  predicate RecordIdShape(drawn: string) {
    StartsWith(drawn, RecordPrefix)
  }

  /**
   * After createRecord stores `rec` (built from `input` with a drawn id):
   * the record carries a truthy `$id`, `records[rec.$id]` is `rec`, an entry
   * already under that key is overwritten, every other entry stays, a drawn
   * id that is not in use is appended at the end, and the pack's key/`$id`
   * agreement is kept.
   */
  lemma CreateRecordSpec(es: Entries<Fields>, input: Fields, drawn: string)
    requires Distinct(es) && RecordIdShape(drawn)
    ensures var rec := Stored(input, drawn);
      var after := Insert(es, rec);
      && Truthy(IdOf(rec))
      && Distinct(after)
      && Lookup(after, KeyOf(rec)) == Some(rec)
      && (forall k :: k != KeyOf(rec) ==> Lookup(after, k) == Lookup(es, k))
      && (!Truthy(IdOf(input)) && FreshRecordKey(drawn, es) ==> after == es + [(KeyOf(rec), rec)])
      && (IdsConsistent(es) ==> IdsConsistent(after))
  {
    var rec := Stored(input, drawn);
    assert |drawn| >= |RecordPrefix|;
    PutSpec(es, KeyOf(rec), rec);
    if !Truthy(IdOf(input)) && FreshRecordKey(drawn, es) {
      assert Find(es, KeyOf(rec)) == -1;
    }
    if IdsConsistent(es) {
      InsertKeepsIdsConsistent(es, rec);
    }
  }

  /** Storing a record under its own `$id` keeps every key naming its record's `$id`. */
  lemma InsertKeepsIdsConsistent(es: Entries<Fields>, rec: Fields)
    requires IdsConsistent(es)
    ensures IdsConsistent(Insert(es, rec))
  {
    var i := Find(es, KeyOf(rec));
    var after := Insert(es, rec);
    if i >= 0 {
      assert after == es[i := (KeyOf(rec), rec)];
    } else {
      assert after == es + [(KeyOf(rec), rec)];
    }
  }

  // ---------------------------------------------------------------- getRecord / deleteRecord

  /**
   * The two ways getRecord and deleteRecord are called: `(id)` and
   * `(field, val)`, where `val` may be `undefined` (None).
   */
  datatype Selector = ById(id: string) | ByField(field: string, value: Option<Value>)

  /** Does `record[field] == val` hold? An undefined `val` matches a missing or null field. */
  predicate FieldMatches(r: Fields, field: string, value: Option<Value>) {
    LooseEq(Get(r, field), value)
  }

  /** The position of the first record, in iteration order, with `record[field] == val`; -1 if none. */
  function FirstMatch(es: Entries<Fields>, field: string, value: Option<Value>): (r: int)
    ensures -1 <= r < |es|
    ensures r >= 0 ==> FieldMatches(es[r].1, field, value)
    ensures forall j :: 0 <= j < |es| && (r < 0 || j < r) ==> !FieldMatches(es[j].1, field, value)
  {
    if es == [] then -1
    else if FieldMatches(es[0].1, field, value) then 0
    else
      var r := FirstMatch(es[1..], field, value);
      assert forall j :: 1 <= j < |es| ==> es[j] == es[1..][j - 1];
      if r < 0 then -1 else r + 1
  }

  /** getRecord: the record stored under `id`, or the first record whose `field` equals `val`. */
  function Select(es: Entries<Fields>, sel: Selector): (r: Option<Fields>)
    ensures r.Some? ==> r.value in Values(es)
    ensures sel.ById? ==> (r.Some? <==> sel.id in Keys(es))
    ensures sel.ByField? && r.Some? ==> FieldMatches(r.value, sel.field, sel.value)
    ensures sel.ByField? && r.None? ==> forall i :: 0 <= i < |es| ==> !FieldMatches(es[i].1, sel.field, sel.value)
  {
    match sel
    case ById(id) => Lookup(es, id)
    case ByField(field, value) =>
      var i := FirstMatch(es, field, value);
      if i < 0 then None else Some(es[i].1)
  }

  /**
   * deleteRecord: what it returns and the records left. By field it
   * deletes `records[record.$id]` of the match, which is the matched entry
   * only while keys and `$id`s agree.
   */
  function Delete(es: Entries<Fields>, sel: Selector): (r: (Option<Fields>, Entries<Fields>))
    ensures r.0 == Select(es, sel)
    ensures r.0.None? ==> r.1 == es
    ensures |r.1| <= |es|
  {
    match sel
    case ById(id) => (Lookup(es, id), Remove(es, id))
    case ByField(field, value) =>
      var i := FirstMatch(es, field, value);
      if i < 0 then (None, es) else (Some(es[i].1), Remove(es, KeyOf(es[i].1)))
  }

  /**
   * deleteRecord removes and returns exactly the record getRecord selects
   * with the same arguments and leaves every other entry in place; with no
   * match it returns null and changes nothing.
   */
  lemma DeleteMatchesSelect(es: Entries<Fields>, sel: Selector)
    requires Distinct(es)
    requires sel.ByField? ==> IdsConsistent(es)
    ensures Delete(es, sel).0 == Select(es, sel)
    ensures Select(es, sel).None? ==> Delete(es, sel).1 == es
    ensures Select(es, sel).Some? ==>
      exists i :: 0 <= i < |es| && es[i].1 == Select(es, sel).value && Delete(es, sel).1 == es[..i] + es[i + 1..]
    ensures Distinct(Delete(es, sel).1)
    ensures IdsConsistent(es) ==> IdsConsistent(Delete(es, sel).1)
  {
    match sel
    case ById(id) =>
      var i := Find(es, id);
      if i >= 0 {
        CutRecord(es, i);
        assert Delete(es, sel) == (Some(es[i].1), es[..i] + es[i + 1..]);
      }
    case ByField(field, value) =>
      var i := FirstMatch(es, field, value);
      if i >= 0 {
        CutRecord(es, i);
        assert es[i].0 == KeyOf(es[i].1);
        assert Delete(es, sel) == (Some(es[i].1), es[..i] + es[i + 1..]);
      }
  }

  /** Deleting the key of entry `i` cuts out exactly that entry, and keeps keys unique and key/`$id` agreement. */
  lemma CutRecord(es: Entries<Fields>, i: nat)
    requires Distinct(es) && i < |es|
    ensures Remove(es, es[i].0) == es[..i] + es[i + 1..]
    ensures Distinct(es[..i] + es[i + 1..])
    ensures IdsConsistent(es) ==> IdsConsistent(es[..i] + es[i + 1..])
  {
    RemoveAt(es, i);
    var rest := es[..i] + es[i + 1..];
    if IdsConsistent(es) {
      forall a | 0 <= a < |rest| ensures rest[a].0 == KeyOf(rest[a].1) {
        CutAt(es, i, a);
      }
    }
    RemoveSpec(es, es[i].0);
  }

  /** Inserting a record and then deleting it by its id gives it back and leaves no entry under that key. */
  lemma CreateThenDelete(es: Entries<Fields>, input: Fields, drawn: string)
    requires Distinct(es) && RecordIdShape(drawn)
    ensures var rec := Stored(input, drawn);
      var after := Insert(es, rec);
      && Select(after, ById(KeyOf(rec))) == Some(rec)
      && Delete(after, ById(KeyOf(rec))).0 == Some(rec)
      && Lookup(Delete(after, ById(KeyOf(rec))).1, KeyOf(rec)) == None
  {
    var rec := Stored(input, drawn);
    CreateRecordSpec(es, input, drawn);
    RemoveSpec(Insert(es, rec), KeyOf(rec));
  }

  /** A record filed under a key other than its `$id` is returned by deleteRecord(field, val) but not removed. */
  lemma DeleteByFieldMissesMisfiledRecord()
    ensures var rec := map[IdField := Str("b"), "x" := Num(1)];
      var es := [("a", rec)];
      Delete(es, ByField("x", Some(Num(1)))) == (Some(rec), es)
  {
    var rec := map[IdField := Str("b"), "x" := Num(1)];
    var es := [("a", rec)];
    assert FirstMatch(es, "x", Some(Num(1))) == 0;
    assert KeyOf(rec) == "b";
    assert Find(es, "b") == -1;
  }

  // ---------------------------------------------------------------- DBIndex.processPack

  /** `record[field].toString()` for a truthy field value. */
  function FieldText(r: Fields, field: string): string {
    StringOf(Get(r, field))
  }

  /** processPack runs to its end only when every record has a truthy `field` value. */
  predicate Indexable(es: Entries<Fields>, field: string) {
    forall i :: 0 <= i < |es| ==> Truthy(Get(es[i].1, field))
  }

  /** One step of the scan: append `id` to the bucket of `key`, opening the bucket if needed. */
  function AddToBucket(b: Entries<Bucket>, key: string, id: Option<Value>): Entries<Bucket> {
    Put(b, key, Lookup(b, key).GetOr([]) + [id])
  }

  /** The buckets the scan of `es` builds. */
  function BucketsOf(es: Entries<Fields>, field: string): Entries<Bucket> {
    if es == [] then []
    else
      var rec := es[|es| - 1].1;
      AddToBucket(BucketsOf(es[..|es| - 1], field), FieldText(rec, field), IdOf(rec))
  }

  /** Scanning one more record adds its `$id` to the bucket of its field text. */
  lemma ScanStep(es: Entries<Fields>, i: nat, field: string)
    requires i < |es|
    ensures BucketsOf(es[..i + 1], field) == AddToBucket(BucketsOf(es[..i], field), FieldText(es[i].1, field), IdOf(es[i].1))
  {
    var longer := es[..i + 1];
    assert |longer| - 1 == i && longer[i] == es[i] && longer[..i] == es[..i];
  }

  /** A truthy field value on one more record keeps the scanned prefix indexable. */
  lemma IndexableStep(es: Entries<Fields>, i: nat, field: string)
    requires i < |es| && Indexable(es[..i], field) && Truthy(Get(es[i].1, field))
    ensures Indexable(es[..i + 1], field)
  {
    assert forall j :: 0 <= j < i ==> es[..i + 1][j] == es[..i][j];
  }

  /** A record whose field value is falsy makes the whole pack unindexable. */
  lemma StopsAt(es: Entries<Fields>, i: nat, field: string)
    requires i < |es| && !Truthy(Get(es[i].1, field))
    ensures !Indexable(es, field)
  {
  }

  /** The field texts of the records, in order. */
  function Texts(es: Entries<Fields>, field: string): (ts: seq<string>)
    ensures |ts| == |es| && forall i :: 0 <= i < |es| ==> ts[i] == FieldText(es[i].1, field)
  {
    seq(|es|, i requires 0 <= i < |es| => FieldText(es[i].1, field))
  }

  /** The texts of a list of records end with the text of its last record. */
  lemma TextsSnoc(es: Entries<Fields>, field: string)
    requires es != []
    ensures Texts(es, field) == Texts(es[..|es| - 1], field) + [FieldText(es[|es| - 1].1, field)]
  {
    var a, b := Texts(es, field), Texts(es[..|es| - 1], field) + [FieldText(es[|es| - 1].1, field)];
    assert |a| == |b|;
    forall i | 0 <= i < |a| ensures a[i] == b[i] {
      if i < |es| - 1 {
        assert es[..|es| - 1][i] == es[i];
      }
    }
  }

  /** Reference definition of a bucket: the `$id`s, in pack order, of the records whose field text is `key`. */
  function IdsWithText(es: Entries<Fields>, field: string, key: string): (ids: Bucket)
    ensures ids == [] <==> key !in Texts(es, field)
  {
    if es == [] then []
    else
      var rec := es[|es| - 1].1;
      var init := IdsWithText(es[..|es| - 1], field, key);
      TextsSnoc(es, field);
      if FieldText(rec, field) == key then init + [IdOf(rec)] else init
  }

  /**
   * The buckets of a scan: one per distinct field text, holding exactly the
   * `$id`s of the records with that text, in pack order.
   */
  lemma {:induction false} BucketsOfSpec(es: Entries<Fields>, field: string)
    ensures Distinct(BucketsOf(es, field))
    ensures forall key ::
      Lookup(BucketsOf(es, field), key) == (if key in Texts(es, field) then Some(IdsWithText(es, field, key)) else None)
  {
    if es != [] {
      var init := es[..|es| - 1];
      var rec := es[|es| - 1].1;
      var t := FieldText(rec, field);
      BucketsOfSpec(init, field);
      var b := BucketsOf(init, field);
      PutSpec(b, t, Lookup(b, t).GetOr([]) + [IdOf(rec)]);
      assert BucketsOf(es, field) == Put(b, t, Lookup(b, t).GetOr([]) + [IdOf(rec)]);
      TextsSnoc(es, field);
      forall key ensures Lookup(BucketsOf(es, field), key) == (if key in Texts(es, field) then Some(IdsWithText(es, field, key)) else None) {
        assert key in Texts(es, field) <==> key in Texts(init, field) || key == t;
        assert IdsWithText(es, field, key) == if t == key then IdsWithText(init, field, key) + [IdOf(rec)] else IdsWithText(init, field, key);
      }
    }
  }

  /** The concatenation of a list of buckets. */
  function Flatten<T>(ss: seq<seq<T>>): seq<T> {
    if ss == [] then [] else ss[0] + Flatten(ss[1..])
  }

  lemma {:induction false} FlattenAppend<T>(ss: seq<seq<T>>, x: seq<T>)
    ensures Flatten(ss + [x]) == Flatten(ss) + x
  {
    if ss != [] {
      assert (ss + [x])[1..] == ss[1..] + [x];
      FlattenAppend(ss[1..], x);
    }
  }

  lemma {:induction false} FlattenConcat<T>(a: seq<seq<T>>, b: seq<seq<T>>)
    ensures Flatten(a + b) == Flatten(a) + Flatten(b)
  {
    if a == [] {
      assert a + b == b;
    } else {
      assert (a + b)[1..] == a[1..] + b;
      FlattenConcat(a[1..], b);
      assert Flatten(a + b) == a[0] + Flatten(a[1..] + b);
    }
  }

  /** The `$id` of every record, in order. */
  function Ids(es: Entries<Fields>): (ids: Bucket)
    ensures |ids| == |es| && forall i :: 0 <= i < |es| ==> ids[i] == IdOf(es[i].1)
  {
    seq(|es|, i requires 0 <= i < |es| => IdOf(es[i].1))
  }

  /** Filing one id adds exactly that id to the buckets' contents. */
  lemma AddToBucketContents(b: Entries<Bucket>, key: string, id: Option<Value>)
    ensures multiset(Flatten(Values(AddToBucket(b, key, id)))) == multiset(Flatten(Values(b))) + multiset{id}
  {
    var i := Find(b, key);
    if i < 0 {
      OpenBucket(b, key, id);
    } else {
      GrowBucket(b, key, id, i);
    }
  }

  lemma OpenBucket(b: Entries<Bucket>, key: string, id: Option<Value>)
    requires Find(b, key) < 0
    ensures multiset(Flatten(Values(AddToBucket(b, key, id)))) == multiset(Flatten(Values(b))) + multiset{id}
  {
    assert Lookup(b, key) == None;
    assert [] + [id] == [id];
    assert AddToBucket(b, key, id) == b + [(key, [id])];
    assert Values(b + [(key, [id])]) == Values(b) + [[id]];
    FlattenConcat(Values(b), [[id]]);
    assert Flatten([[id]]) == [id] + Flatten([]);
  }

  lemma GrowBucket(b: Entries<Bucket>, key: string, id: Option<Value>, i: int)
    requires i == Find(b, key) && i >= 0
    ensures multiset(Flatten(Values(AddToBucket(b, key, id)))) == multiset(Flatten(Values(b))) + multiset{id}
  {
    var prior := b[i].1;
    assert Lookup(b, key) == Some(prior);
    var after := b[i := (key, prior + [id])];
    assert AddToBucket(b, key, id) == after;
    ValuesUpdate(b, i, (key, prior + [id]));
    FlattenGrow(Values(b), i, id);
  }

  lemma FlattenGrow<T>(ss: seq<seq<T>>, i: nat, x: T)
    requires i < |ss|
    ensures multiset(Flatten(ss[i := ss[i] + [x]])) == multiset(Flatten(ss)) + multiset{x}
  {
    var pre, post := ss[..i], ss[i + 1..];
    assert ss == pre + ([ss[i]] + post);
    assert ss[i := ss[i] + [x]] == pre + ([ss[i] + [x]] + post);
    FlattenConcat(pre, [ss[i]] + post);
    FlattenConcat([ss[i]], post);
    FlattenConcat(pre, [ss[i] + [x]] + post);
    FlattenConcat([ss[i] + [x]], post);
    assert Flatten([ss[i]]) == ss[i] + Flatten([]);
    assert Flatten([ss[i] + [x]]) == ss[i] + [x] + Flatten([]);
  }

  lemma ValuesUpdate<V>(es: Entries<V>, i: nat, e: (string, V))
    requires i < |es|
    ensures Values(es[i := e]) == Values(es)[i := e.1]
  {
  }

  /** The ids of a list of records end with the id of its last record. */
  lemma IdsSnoc(es: Entries<Fields>)
    requires es != []
    ensures Ids(es) == Ids(es[..|es| - 1]) + [IdOf(es[|es| - 1].1)]
  {
    var a, b := Ids(es), Ids(es[..|es| - 1]) + [IdOf(es[|es| - 1].1)];
    assert |a| == |b|;
    forall i | 0 <= i < |a| ensures a[i] == b[i] {
      if i < |es| - 1 {
        assert es[..|es| - 1][i] == es[i];
      }
    }
  }

  /** Every record's `$id` lands in exactly one bucket: the buckets together hold the ids of the pack, no more, no fewer. */
  lemma {:induction false} BucketsPartitionIds(es: Entries<Fields>, field: string)
    ensures multiset(Flatten(Values(BucketsOf(es, field)))) == multiset(Ids(es))
  {
    if es != [] {
      var init := es[..|es| - 1];
      var rec := es[|es| - 1].1;
      BucketsPartitionIds(init, field);
      AddToBucketContents(BucketsOf(init, field), FieldText(rec, field), IdOf(rec));
      IdsSnoc(es);
    }
  }

  /** The buckets processPack leaves: rebuilt from the pack when it runs to its end, the previous ones otherwise. */
  function Rebuild(prev: Entries<Bucket>, es: Entries<Fields>, field: string): Entries<Bucket> {
    if Indexable(es, field) then BucketsOf(es, field) else prev
  }

  /** processPack depends only on the pack and the field, so repeating it changes nothing further. */
  lemma RebuildIdempotent(prev: Entries<Bucket>, other: Entries<Bucket>, es: Entries<Fields>, field: string)
    ensures Rebuild(Rebuild(prev, es, field), es, field) == Rebuild(prev, es, field)
    ensures Indexable(es, field) ==> Rebuild(prev, es, field) == Rebuild(other, es, field)
  {
  }
}
