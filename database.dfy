/**
 * The classes of database.ts: DBIndex, DBPack and DBDatabase, whose methods
 * update their fields in place. Each is tied to a value of module Documents
 * by `Model()`, and each method's new state to a function of that module or
 * of module RecordStore.
 */
module Database {
  import opened Common
  import opened JsValues
  import opened JsStrings
  import opened Assoc
  import opened Shapes
  import opened RecordStore
  import opened Documents

  /** The prefix of `randomID("Index-")`. */
  const IndexPrefix := "Index-"

  /** An id `randomID("Index-")` can return. */
  predicate IndexIdShape(id: string) {
    StartsWith(id, IndexPrefix)
  }

  /** An index over one field of a pack: field text to the `$id`s of the records carrying it. */
  class DBIndex {
    var id: string
    var field: string
    var records: Entries<Bucket>

    /** The buckets form a JS object: each field text once. */
    ghost predicate Valid()
      reads this
    {
      Distinct(records)
    }

    function Model(): IndexValue
      reads this
    {
      IndexValue(id, field, records)
    }

    /** `new DBIndex(field)` */
    constructor (field: string)
      ensures Valid() && IndexIdShape(id) && this.field == field && records == []
    {
      assert IndexIdShape(IndexPrefix);
      var drawn :| IndexIdShape(drawn);
      id := drawn;
      this.field := field;
      records := [];
    }

    /** `new DBIndex(obj)`: a drawn id, no field and no buckets, then parseJSON. */
    constructor FromJson(obj: IndexJson)
      ensures Valid()
      ensures exists drawn :: IndexIdShape(drawn) && Model() == ApplyIndexJson(IndexValue(drawn, "", []), obj)
    {
      assert IndexIdShape(IndexPrefix);
      var drawn :| IndexIdShape(drawn);
      id := drawn;
      field := "";
      records := [];
      new;
      ParseJSON(obj);
    }

    /**
     * processPack: scan the pack's records in order, filing each `$id`
     * under the text of its field value. A record whose field value is
     * falsy ends the scan and leaves the buckets as they were.
     */
    method ProcessPack(pack: DBPack)
      requires Valid()
      modifies this
      ensures Valid() && id == old(id) && field == old(field)
      ensures records == Rebuild(old(records), pack.records, field)
    {
      var es := pack.records;
      var built: Entries<Bucket> := [];
      var i := 0;
      while i < |es|
        invariant 0 <= i <= |es|
        invariant built == BucketsOf(es[..i], field) && Indexable(es[..i], field)
        invariant id == old(id) && field == old(field) && records == old(records) && es == pack.records
      {
        var record := es[i].1;
        if !Truthy(Get(record, field)) {
          StopsAt(es, i, field);
          return;
        }
        var text := FieldText(record, field);
        // a missing bucket is opened empty, then the id is pushed
        var bucket := Lookup(built, text).GetOr([]);
        ScanStep(es, i, field);
        IndexableStep(es, i, field);
        built := Put(built, text, bucket + [IdOf(record)]);
        i := i + 1;
      }
      assert es[..i] == es;
      BucketsOfSpec(es, field);
      records := built;
    }

    /** parseJSON: a string id or field replaces the index's own; the buckets of the document are copied in one by one. */
    method ParseJSON(obj: IndexJson)
      requires Valid()
      modifies this
      ensures Valid() && Model() == ApplyIndexJson(old(Model()), obj)
    {
      if obj.id.Some? {
        id := obj.id.value;
      }
      if obj.field.Some? {
        field := obj.field.value;
      }
      if obj.records.Some? {
        CopyBuckets(obj.records.value);
      }
    }

    /** The copy loop of parseJSON: `this.records[name] = clone(recordIDs)` for each entry. */
    method CopyBuckets(more: Entries<Bucket>)
      requires Valid()
      modifies this
      ensures Valid() && id == old(id) && field == old(field)
      ensures records == PutAll(old(records), more)
    {
      var i := 0;
      while i < |more|
        invariant 0 <= i <= |more|
        invariant Distinct(records) && records == PutAll(old(records), more[..i])
        invariant id == old(id) && field == old(field)
      {
        PutSpec(records, more[i].0, more[i].1);
        records := Put(records, more[i].0, more[i].1);
        assert more[..i + 1][..i] == more[..i];
        i := i + 1;
      }
      assert more[..i] == more;
    }

    /** toJSON */
    function ToJSON(): IndexJson
      reads this
    {
      EncodeIndex(Model())
    }
  }

  /** A named collection of records keyed by their `$id`. */
  class DBPack {
    var name: string
    var records: Entries<Fields>
    var details: Details

    /** The records form a JS object: each key once. */
    ghost predicate Valid()
      reads this
    {
      Distinct(records)
    }

    function Model(): PackValue
      reads this
    {
      PackValue(name, records, details)
    }

    /** `new DBPack(name)`; the two clock reads are `stamp`. */
    constructor (name: string, stamp: Details)
      ensures Valid() && Model() == EmptyPack(name, stamp)
    {
      this.name := name;
      records := [];
      details := stamp;
    }

    /** `new DBPack(x)` with `x` a string, an object or anything else. */
    constructor FromDoc(doc: PackDoc, stamp: Details)
      ensures Valid() && Model() == DecodePackDoc(doc, stamp)
    {
      name := "";
      records := [];
      details := stamp;
      new;
      if doc.PackText? {
        name := doc.text;
      } else if doc.PackObject? {
        ParseJSON(doc.doc);
      }
    }

    /**
     * createRecord: read the record (JSON.parse for a string), keep a truthy
     * `$id` or write a drawn `Rec-` id into it, and store it under that id.
     */
    method CreateRecord(data: Option<Value>, parse: string -> Result<Value>) returns (r: Result<Fields>)
      requires Valid()
      modifies this
      ensures Valid() && name == old(name) && details == old(details)
      ensures RecordFrom(data, parse).Fail? ==> r == RecordFrom(data, parse) && records == old(records)
      ensures RecordFrom(data, parse).Ok? ==>
        && r.Ok?
        && records == Insert(old(records), r.value)
        && exists drawn :: RecordIdShape(drawn) && r.value == Stored(RecordFrom(data, parse).value, drawn)
    {
      var input := RecordFrom(data, parse);
      if input.Fail? {
        return input;
      }
      assert RecordIdShape(RecordPrefix);
      var drawn :| RecordIdShape(drawn);
      var rec := Stored(input.value, drawn);
      PutSpec(records, KeyOf(rec), rec);
      records := Insert(records, rec);
      r := Ok(rec);
    }

    /** getRecord(id) or getRecord(field, val). */
    method GetRecord(sel: Selector) returns (r: Option<Fields>)
      ensures r == Select(records, sel)
    {
      match sel
      case ById(id) =>
        r := Lookup(records, id);
      case ByField(field, value) =>
        var i := 0;
        while i < |records|
          invariant 0 <= i <= |records|
          invariant forall j :: 0 <= j < i ==> !FieldMatches(records[j].1, field, value)
        {
          if FieldMatches(records[i].1, field, value) {
            return Some(records[i].1);
          }
          i := i + 1;
        }
        r := None;
    }

    /** deleteRecord(id) or deleteRecord(field, val); by field it deletes the key named by the match's `$id`. */
    method DeleteRecord(sel: Selector) returns (r: Option<Fields>)
      requires Valid()
      modifies this
      ensures Valid() && name == old(name) && details == old(details)
      ensures (r, records) == Delete(old(records), sel)
    {
      match sel
      case ById(id) =>
        if id in Keys(records) {
          RemoveSpec(records, id);
          r := Lookup(records, id);
          records := Remove(records, id);
        } else {
          r := None;
        }
      case ByField(field, value) =>
        var i := 0;
        while i < |records|
          invariant 0 <= i <= |records|
          invariant records == old(records)
          invariant forall j :: 0 <= j < i ==> !FieldMatches(records[j].1, field, value)
        {
          var record := records[i].1;
          if FieldMatches(record, field, value) {
            RemoveSpec(records, KeyOf(record));
            records := Remove(records, KeyOf(record));
            return Some(record);
          }
          i := i + 1;
        }
        r := None;
    }

    /** parseJSON: a string name or a details object replaces the pack's own; records are copied in one by one. */
    method ParseJSON(obj: PackJson)
      requires Valid()
      modifies this
      ensures Valid() && Model() == ApplyPackJson(old(Model()), obj)
    {
      if obj.name.Some? {
        name := obj.name.value;
      }
      if obj.records.Some? {
        CopyRecords(obj.records.value);
      }
      if obj.details.Some? {
        details := obj.details.value;
      }
    }

    /** The copy loop of parseJSON: `this.records[id] = record` for each entry, in order. */
    method CopyRecords(more: Entries<Fields>)
      requires Valid()
      modifies this
      ensures Valid() && records == PutAll(old(records), more)
      ensures name == old(name) && details == old(details)
    {
      var i := 0;
      while i < |more|
        invariant 0 <= i <= |more|
        invariant Distinct(records) && records == PutAll(old(records), more[..i])
        invariant name == old(name) && details == old(details)
      {
        PutSpec(records, more[i].0, more[i].1);
        records := Put(records, more[i].0, more[i].1);
        assert more[..i + 1][..i] == more[..i];
        i := i + 1;
      }
      assert more[..i] == more;
    }

    /** toJSON */
    function ToJSON(): PackJson
      reads this
    {
      EncodePack(Model())
    }
  }

  /** The values of the packs a list of entries refers to, entry by entry. */
  function PackModels(ps: Entries<DBPack>): (ms: Entries<PackValue>)
    reads set i | 0 <= i < |ps| :: ps[i].1
    ensures |ms| == |ps| && forall i :: 0 <= i < |ps| ==> ms[i] == (ps[i].0, ps[i].1.Model())
  {
    seq(|ps|, i requires 0 <= i < |ps| reads if 0 <= i < |ps| then {ps[i].1} else {} => (ps[i].0, ps[i].1.Model()))
  }

  /** Pack names are unique, and every name refers to a distinct, valid pack of `repr`. */
  ghost predicate PacksOk(ps: Entries<DBPack>, repr: set<DBPack>)
    reads repr
  {
    && Distinct(ps)
    && (forall i :: 0 <= i < |ps| ==> ps[i].1 in repr && ps[i].1.Valid())
    && (forall i, j :: 0 <= i < j < |ps| ==> ps[i].1 != ps[j].1)
  }

  /** Filing a valid pack object not held before keeps the pack list in order. */
  lemma PacksOkPut(ps: Entries<DBPack>, repr: set<DBPack>, k: string, p: DBPack)
    requires PacksOk(ps, repr) && p !in repr && p.Valid()
    ensures PacksOk(Put(ps, k, p), repr + {p})
  {
    PutSpec(ps, k, p);
    var i := Find(ps, k);
    if i < 0 {
      PacksOkAppend(ps, repr, k, p);
    } else {
      PacksOkReplace(ps, repr, i, p);
    }
  }

  lemma PacksOkAppend(ps: Entries<DBPack>, repr: set<DBPack>, k: string, p: DBPack)
    requires PacksOk(ps, repr) && p !in repr && p.Valid() && Distinct(ps + [(k, p)])
    ensures PacksOk(ps + [(k, p)], repr + {p})
  {
    var after := ps + [(k, p)];
    forall j | 0 <= j < |after| ensures after[j].1 in repr + {p} && after[j].1.Valid() {
      if j < |ps| {
        assert after[j] == ps[j];
      }
    }
    forall a, b | 0 <= a < b < |after| ensures after[a].1 != after[b].1 {
      assert after[a] == ps[a];
      if b < |ps| {
        assert after[b] == ps[b];
      }
    }
  }

  lemma PacksOkReplace(ps: Entries<DBPack>, repr: set<DBPack>, i: nat, p: DBPack)
    requires PacksOk(ps, repr) && p !in repr && p.Valid() && i < |ps| && Distinct(ps[i := (ps[i].0, p)])
    ensures PacksOk(ps[i := (ps[i].0, p)], repr + {p})
  {
    var after := ps[i := (ps[i].0, p)];
    forall j | 0 <= j < |after| ensures after[j].1 in repr + {p} && after[j].1.Valid() {
      if j != i {
        assert after[j] == ps[j];
      }
    }
    forall a, b | 0 <= a < b < |after| ensures after[a].1 != after[b].1 {
      if a != i {
        assert after[a] == ps[a];
      }
      if b != i {
        assert after[b] == ps[b];
      }
    }
  }

  /** Unfiling a name keeps the pack list in order. */
  lemma PacksOkRemove(ps: Entries<DBPack>, repr: set<DBPack>, k: string)
    requires PacksOk(ps, repr)
    ensures PacksOk(Remove(ps, k), repr)
  {
    RemoveSpec(ps, k);
    var i := Find(ps, k);
    if i >= 0 {
      RemoveAt(ps, i);
      var rest := ps[..i] + ps[i + 1..];
      forall a | 0 <= a < |rest| ensures rest[a] == ps[if a < i then a else a + 1] {
        CutAt(ps, i, a);
      }
    }
  }

  lemma ModelKeys(ps: Entries<DBPack>)
    ensures Keys(PackModels(ps)) == Keys(ps)
  {
  }

  /** Filing a pack object under a key files its value under that key. */
  lemma ModelsPut(ps: Entries<DBPack>, k: string, p: DBPack)
    ensures PackModels(Put(ps, k, p)) == Put(PackModels(ps), k, p.Model())
  {
    ModelKeys(ps);
    FindByKeys(ps, PackModels(ps), k);
  }

  /** Deleting a key deletes the value filed under it. */
  lemma ModelsRemove(ps: Entries<DBPack>, k: string)
    ensures PackModels(Remove(ps, k)) == Remove(PackModels(ps), k)
  {
    ModelKeys(ps);
    FindByKeys(ps, PackModels(ps), k);
    var i := Find(ps, k);
    if i >= 0 {
      var a, b := PackModels(Remove(ps, k)), Remove(PackModels(ps), k);
      assert |a| == |b|;
      forall j | 0 <= j < |a| ensures a[j] == b[j] {
        CutAt(ps, i, j);
        CutAt(PackModels(ps), i, j);
      }
    }
  }

  /** When only the pack object at position `i` may have changed, only entry `i` of the values does. */
  lemma ModelsOneChanged(ps: Entries<DBPack>, before: Entries<PackValue>, i: nat)
    requires i < |ps| && |before| == |ps| && before[i].0 == ps[i].0
    requires forall j :: 0 <= j < |ps| && j != i ==> before[j] == (ps[j].0, ps[j].1.Model())
    ensures PackModels(ps) == before[i := (ps[i].0, ps[i].1.Model())]
  {
  }

  /** Every pack object filed under a key of `ks` lies outside `r`. */
  ghost predicate FiledOutside(es: Entries<DBPack>, ks: seq<string>, r: set<DBPack>)
  {
    forall m :: 0 <= m < |es| && es[m].0 in ks ==> es[m].1 !in r
  }

  /** Each entry of `es'` is `(k, p)` or an entry of `es` under another key: what `es[k] = p` leaves. */
  ghost predicate Refiled(es: Entries<DBPack>, es': Entries<DBPack>, k: string, p: DBPack) {
    forall m :: 0 <= m < |es'| ==> es'[m] == (k, p) || (es'[m].0 != k && es'[m] in es)
  }

  lemma PutRefiles(es: Entries<DBPack>, k: string, p: DBPack)
    requires Distinct(es)
    ensures Refiled(es, Put(es, k, p), k, p)
  {
    var i := Find(es, k);
    var es' := Put(es, k, p);
    forall m | 0 <= m < |es'| ensures es'[m] == (k, p) || (es'[m].0 != k && es'[m] in es) {
      if m < |es| && m != i {
        assert es'[m] == es[m];
        if i >= 0 {
          assert es[i].0 == k;
        } else {
          assert es[m].0 == Keys(es)[m];
        }
      }
    }
  }

  /** Filing an object outside `r` under `k` extends FiledOutside from `ks` to `ks + [k]`. */
  lemma PutOutside(es: Entries<DBPack>, k: string, p: DBPack, ks: seq<string>, r: set<DBPack>)
    requires Distinct(es) && FiledOutside(es, ks, r) && p !in r
    ensures FiledOutside(Put(es, k, p), ks + [k], r)
  {
    var es' := Put(es, k, p);
    PutRefiles(es, k, p);
    forall m | 0 <= m < |es'| && es'[m].0 in ks + [k] ensures es'[m].1 !in r {
      if es'[m] != (k, p) {
        var m' :| 0 <= m' < |es| && es[m'] == es'[m];
      }
    }
  }

  /** A database: named packs, each a DBPack object of its own. */
  class DBDatabase {
    var name: string
    var path: Option<string>
    var packs: Entries<DBPack>
    var details: Details
    /** The pack objects this database has held. */
    ghost var Repr: set<DBPack>

    ghost predicate Valid()
      reads this, Repr
    {
      PacksOk(packs, Repr)
    }

    function Model(): (v: DatabaseValue)
      requires Valid()
      reads this, Repr
      ensures WellFormed(v)
    {
      ModelKeys(packs);
      DatabaseValue(name, path, PackModels(packs), details)
    }

    /** `new DBDatabase(name, path)` */
    constructor Named(name: string, path: string, stamp: Details)
      ensures Valid() && Repr == {}
      ensures Model() == NamedDatabase(name, path, stamp)
    {
      this.name := name;
      this.path := Some(path);
      packs := [];
      details := stamp;
      Repr := {};
    }

    /** `new DBDatabase(obj)`: parseJSON on a database with no name, no path and no packs. */
    constructor FromJson(doc: DatabaseJson, stamp: Details)
      ensures Valid() && fresh(Repr)
      ensures Model() == ApplyDatabaseJson(EmptyDatabase(stamp), doc, stamp)
    {
      name := "";
      path := None;
      packs := [];
      details := stamp;
      Repr := {};
      new;
      ghost var added := ParseJSON(doc, stamp);
    }

    /**
     * `new DBDatabase(jsonStr)`: `read` is JSON.parse seen through the
     * IDatabase shape, None when it throws; a text that does not parse
     * leaves the defaults.
     */
    constructor FromText(text: string, read: string -> Option<DatabaseJson>, stamp: Details)
      ensures Valid() && fresh(Repr)
      ensures read(text).None? ==> Model() == EmptyDatabase(stamp)
      ensures read(text).Some? ==> Model() == ApplyDatabaseJson(EmptyDatabase(stamp), read(text).value, stamp)
    {
      name := "";
      path := None;
      packs := [];
      details := stamp;
      Repr := {};
      new;
      var doc := read(text);
      if doc.Some? {
        ghost var added := ParseJSON(doc.value, stamp);
      }
    }

    /** getPackByName: the pack object filed under `name`, undefined when there is none. */
    function GetPackByName(name: string): (r: Option<DBPack>)
      requires Valid()
      reads this, Repr
      ensures r.None? <==> Lookup(Model().packs, name).None?
      ensures r.Some? ==> r.value in Repr && r.value.Valid() && Lookup(Model().packs, name) == Some(r.value.Model())
    {
      ModelKeys(packs);
      FindByKeys(packs, PackModels(packs), name);
      Lookup(packs, name)
    }

    /** createPack: a new pack object filed under its name, replacing any pack of that name. */
    method CreatePack(name: string, stamp: Details) returns (pack: DBPack)
      requires Valid()
      modifies this
      ensures Valid() && fresh(pack) && Repr == old(Repr) + {pack}
      ensures packs == Put(old(packs), name, pack)
      ensures pack.Model() == EmptyPack(name, stamp)
      ensures Model() == CreatePackValue(old(Model()), name, stamp)
    {
      ghost var before := PackModels(packs);
      pack := new DBPack(name, stamp);
      assert PackModels(packs) == before;
      PacksOkPut(packs, Repr, name, pack);
      ModelsPut(packs, name, pack);
      packs := Put(packs, name, pack);
      Repr := Repr + {pack};
    }

    /** deletePack: unfile the pack of that name and return it (undefined when there is none). */
    method DeletePack(name: string) returns (r: Option<DBPack>)
      requires Valid()
      modifies this
      ensures Valid() && Repr == old(Repr)
      ensures r == old(GetPackByName(name))
      ensures packs == Remove(old(packs), name)
      ensures Model() == DeletePackValue(old(Model()), name)
    {
      r := Lookup(packs, name);
      PacksOkRemove(packs, Repr, name);
      ModelsRemove(packs, name);
      packs := Remove(packs, name);
    }

    /**
     * parseJSON: each field the document carries replaces the database's own;
     * every entry of `packs` becomes a new DBPack, and `added` is the set of
     * those new objects.
     */
    method ParseJSON(doc: DatabaseJson, stamp: Details) returns (ghost added: set<DBPack>)
      requires Valid()
      modifies this
      ensures Valid() && fresh(added) && Repr == old(Repr) + added
      ensures doc.packs.Some? ==> forall m :: 0 <= m < |packs| && packs[m].0 in Keys(doc.packs.value) ==> packs[m].1 in added
      ensures Model() == ApplyDatabaseJson(old(Model()), doc, stamp)
    {
      ghost var m0 := Model();
      name := doc.name.GetOr(name);
      added := {};
      if doc.packs.Some? {
        added := AddPacks(doc.packs.value, stamp);
      }
      ghost var ms := PackModels(packs);
      assert ms == ApplyDatabaseJson(m0, doc, stamp).packs;
      path := if doc.path.Some? then doc.path else path;
      details := doc.details.GetOr(details);
      assert PackModels(packs) == ms;
    }

    /** The copy loop of parseJSON: `this.packs[name] = new DBPack(pack)` for each entry. */
    method AddPacks(more: Entries<PackDoc>, stamp: Details) returns (ghost added: set<DBPack>)
      requires Valid()
      modifies this
      ensures Valid() && fresh(added) && Repr == old(Repr) + added
      ensures name == old(name) && path == old(path) && details == old(details)
      ensures forall m :: 0 <= m < |packs| && packs[m].0 in Keys(more) ==> packs[m].1 in added
      ensures PackModels(packs) == PutAll(old(PackModels(packs)), DecodePacks(more, stamp))
    {
      ghost var start := PackModels(packs);
      var i := 0;
      while i < |more|
        invariant 0 <= i <= |more|
        invariant Valid() && old(Repr) <= Repr && fresh(Repr - old(Repr))
        invariant FiledOutside(packs, Keys(more[..i]), old(Repr))
        invariant PackModels(packs) == PutAll(start, DecodePacks(more[..i], stamp))
        invariant name == old(name) && path == old(path) && details == old(details)
      {
        ghost var p := AddPack(more[i].0, more[i].1, stamp, Keys(more[..i]), old(Repr));
        KeysStep(more, i);
        DecodePacksStep(start, more, i, stamp);
        i := i + 1;
      }
      assert more[..i] == more;
      added := Repr - old(Repr);
      assert FiledOutside(packs, Keys(more), old(Repr));
    }

    /** One step of that loop: a new DBPack read from `doc`, filed under `k`. */
    method AddPack(k: string, doc: PackDoc, stamp: Details, ghost ks: seq<string>, ghost r: set<DBPack>) returns (ghost added: DBPack)
      requires Valid()
      modifies this
      ensures Valid() && Repr == old(Repr) + {added} && fresh(added)
      ensures FiledOutside(old(packs), ks, r) && added !in r ==> FiledOutside(packs, ks + [k], r)
      ensures name == old(name) && path == old(path) && details == old(details)
      ensures PackModels(packs) == Put(old(PackModels(packs)), k, DecodePackDoc(doc, stamp))
    {
      ghost var prev := PackModels(packs);
      var p := new DBPack.FromDoc(doc, stamp);
      assert PackModels(packs) == prev;
      PacksOkPut(packs, Repr, k, p);
      ModelsPut(packs, k, p);
      if FiledOutside(packs, ks, r) && p !in r {
        PutOutside(packs, k, p, ks, r);
      }
      packs := Put(packs, k, p);
      Repr := Repr + {p};
      added := p;
    }

    /** toJSON: the database's fields, with `packs[id] = pack.toJSON()` for each pack in order. */
    method ToJSON() returns (doc: DatabaseJson)
      requires Valid()
      ensures doc == EncodeDatabase(Model())
    {
      var ds: Entries<PackDoc> := [];
      var i := 0;
      while i < |packs|
        invariant 0 <= i <= |packs|
        invariant ds == EncodePacks(PackModels(packs[..i]))
      {
        var key := packs[i].0;
        assert key !in Keys(ds) by {
          forall j | 0 <= j < i ensures Keys(ds)[j] != key {
            assert ds[j].0 == packs[j].0;
          }
        }
        ds := Put(ds, key, PackObject(packs[i].1.ToJSON()));
        assert packs[..i + 1] == packs[..i] + [packs[i]];
        i := i + 1;
      }
      assert packs[..i] == packs;
      doc := DatabaseJson(Some(name), path, Some(ds), Some(details));
    }
  }

  /**
   * `db.getPackByName(k).createRecord(data)` seen from the database: the
   * pack filed under `k` gets the record and no other pack changes.
   */
  method CreateRecordInPack(d: DBDatabase, k: string, p: DBPack, data: Option<Value>, parse: string -> Result<Value>)
    returns (r: Result<Fields>)
    requires d.Valid() && d.GetPackByName(k) == Some(p)
    modifies p
    ensures d.Valid() && d.GetPackByName(k) == Some(p)
    ensures RecordFrom(data, parse).Fail? ==> r == RecordFrom(data, parse) && d.Model() == old(d.Model())
    ensures RecordFrom(data, parse).Ok? ==>
      && r.Ok?
      && (exists drawn :: RecordIdShape(drawn) && r.value == Stored(RecordFrom(data, parse).value, drawn))
      && d.Model() == old(d.Model()).(packs := Put(old(d.Model()).packs, k, old(p.Model()).(records := Insert(old(p.records), r.value))))
  {
    ghost var ps := d.packs;
    ghost var before := PackModels(ps);
    ghost var m0 := d.Model();
    ghost var p0 := p.Model();
    ghost var i := Find(ps, k);
    ModelKeys(ps);
    FindByKeys(ps, before, k);
    assert ps[i].1 == p && before[i] == (k, p.Model());
    r := p.CreateRecord(data, parse);
    forall j | 0 <= j < |ps| && j != i ensures before[j] == (ps[j].0, ps[j].1.Model()) && ps[j].1.Valid() {
      assert ps[j].1 != p;
    }
    ModelsOneChanged(ps, before, i);
    assert PacksOk(ps, d.Repr);
    assert d.Model() == m0.(packs := before[i := (k, p.Model())]);
    assert m0.packs == before && Find(before, k) == i;
    if RecordFrom(data, parse).Fail? {
      assert p.Model() == before[i].1;
      assert before[i := (k, p.Model())] == before;
    } else {
      assert p.Model() == p0.(records := Insert(p0.records, r.value));
    }
  }
}
