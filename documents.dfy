/**
 * The state of DBIndex, DBPack and DBDatabase as values, with what their
 * toJSON and parseJSON compute on those values. The classes of module
 * Database are proved to follow these functions.
 */
module Documents {
  import opened Common
  import opened JsValues
  import opened Assoc
  import opened Shapes

  datatype PackValue = PackValue(name: string, records: Entries<Fields>, details: Details)

  datatype DatabaseValue = DatabaseValue(name: string, path: Option<string>, packs: Entries<PackValue>, details: Details)

  datatype IndexValue = IndexValue(id: string, field: string, records: Entries<Bucket>)

  // ---------------------------------------------------------------- packs

  /** DBPack.toJSON */
  function EncodePack(p: PackValue): PackJson {
    PackJson(Some(p.name), Some(p.records), Some(p.details))
  }

  /** DBPack.parseJSON applied to a pack in state `p`: each field the document carries overrides, records are copied in one by one. */
  function ApplyPackJson(p: PackValue, d: PackJson): PackValue {
    PackValue(
      d.name.GetOr(p.name),
      if d.records.Some? then PutAll(p.records, d.records.value) else p.records,
      d.details.GetOr(p.details))
  }

  /** A pack as `new DBPack(name)` makes it; the clock reads are `stamp`. */
  function EmptyPack(name: string, stamp: Details): PackValue {
    PackValue(name, [], stamp)
  }

  /** `new DBPack(x)` for the three kinds of argument. */
  function DecodePackDoc(doc: PackDoc, stamp: Details): PackValue {
    match doc
    case PackObject(d) => ApplyPackJson(EmptyPack("", stamp), d)
    case PackText(name) => EmptyPack(name, stamp)
    case PackOther => EmptyPack("", stamp)
  }

  /**
   * parseJSON keeps a pack's keys unique; a document's name and details
   * replace the pack's own, and each of its records replaces the record
   * under the same key while every other record stays.
   */
  lemma ApplyPackJsonSpec(p: PackValue, d: PackJson)
    requires Distinct(p.records)
    ensures var q := ApplyPackJson(p, d);
      && Distinct(q.records)
      && (d.name.Some? ==> q.name == d.name.value)
      && (d.name.None? ==> q.name == p.name)
      && (d.details.Some? ==> q.details == d.details.value)
      && (d.details.None? ==> q.details == p.details)
      && (d.records.None? ==> q.records == p.records)
      && (d.records.Some? && Distinct(d.records.value) ==> forall k ::
            Lookup(q.records, k) == (if k in Keys(d.records.value) then Lookup(d.records.value, k) else Lookup(p.records, k)))
  {
    if d.records.Some? {
      PutAllSpec(p.records, d.records.value);
    }
  }

  /** A pack written by toJSON and read back by `new DBPack(obj)` is the same pack. */
  lemma PackRoundTrip(p: PackValue, stamp: Details)
    requires Distinct(p.records)
    ensures DecodePackDoc(PackObject(EncodePack(p)), stamp) == p
  {
    PutAllIntoEmpty(p.records);
  }

  // ---------------------------------------------------------------- databases

  /** Every pack map a database can reach: pack names are unique keys and so are the record keys of each pack. */
  ghost predicate WellFormed(v: DatabaseValue) {
    Distinct(v.packs) && forall i :: 0 <= i < |v.packs| ==> Distinct(v.packs[i].1.records)
  }

  /** The `packs` object DBDatabase.toJSON builds, one `pack.toJSON()` per entry. */
  function EncodePacks(ps: Entries<PackValue>): (ds: Entries<PackDoc>)
    ensures |ds| == |ps| && forall i :: 0 <= i < |ps| ==> ds[i] == (ps[i].0, PackObject(EncodePack(ps[i].1)))
  {
    seq(|ps|, i requires 0 <= i < |ps| => (ps[i].0, PackObject(EncodePack(ps[i].1))))
  }

  /** DBDatabase.toJSON */
  function EncodeDatabase(v: DatabaseValue): DatabaseJson {
    DatabaseJson(Some(v.name), v.path, Some(EncodePacks(v.packs)), Some(v.details))
  }

  /** The packs `new DBPack(pack)` builds for each entry of a document's `packs`. */
  function DecodePacks(ds: Entries<PackDoc>, stamp: Details): (ps: Entries<PackValue>)
    ensures |ps| == |ds| && forall i :: 0 <= i < |ds| ==> ps[i] == (ds[i].0, DecodePackDoc(ds[i].1, stamp))
  {
    seq(|ds|, i requires 0 <= i < |ds| => (ds[i].0, DecodePackDoc(ds[i].1, stamp)))
  }

  /** One more entry of `packs` read in: the pack it decodes to is filed under its key. */
  lemma DecodePacksStep(start: Entries<PackValue>, ds: Entries<PackDoc>, i: nat, stamp: Details)
    requires i < |ds|
    ensures PutAll(start, DecodePacks(ds[..i + 1], stamp))
      == Put(PutAll(start, DecodePacks(ds[..i], stamp)), ds[i].0, DecodePackDoc(ds[i].1, stamp))
  {
    var longer := DecodePacks(ds[..i + 1], stamp);
    assert longer[..i] == DecodePacks(ds[..i], stamp);
  }

  /** DBDatabase.parseJSON applied to a database in state `v`. */
  function ApplyDatabaseJson(v: DatabaseValue, d: DatabaseJson, stamp: Details): DatabaseValue {
    DatabaseValue(
      d.name.GetOr(v.name),
      if d.path.Some? then d.path else v.path,
      if d.packs.Some? then PutAll(v.packs, DecodePacks(d.packs.value, stamp)) else v.packs,
      d.details.GetOr(v.details))
  }

  /** The fields of a DBDatabase before its constructor runs. */
  function EmptyDatabase(stamp: Details): DatabaseValue {
    DatabaseValue("", None, [], stamp)
  }

  /** `new DBDatabase(name, path)` */
  function NamedDatabase(name: string, path: string, stamp: Details): (v: DatabaseValue)
    ensures WellFormed(v) && v.packs == [] && v.path == Some(path) && v.name == name
  {
    DatabaseValue(name, Some(path), [], stamp)
  }

  /** Every pack `new DBPack(doc)` builds holds each record key once. */
  lemma DecodePackDocDistinct(doc: PackDoc, stamp: Details)
    ensures Distinct(DecodePackDoc(doc, stamp).records)
  {
    if doc.PackObject? {
      ApplyPackJsonSpec(EmptyPack("", stamp), doc.doc);
    }
  }

  /** parseJSON keeps a database well formed whatever document it reads. */
  lemma ApplyDatabaseJsonWellFormed(v: DatabaseValue, d: DatabaseJson, stamp: Details)
    requires WellFormed(v)
    ensures WellFormed(ApplyDatabaseJson(v, d, stamp))
  {
    if d.packs.Some? {
      var more := DecodePacks(d.packs.value, stamp);
      forall i | 0 <= i < |more| ensures Distinct(more[i].1.records) {
        DecodePackDocDistinct(d.packs.value[i].1, stamp);
      }
      PutAllKeepsValues(v.packs, more);
    }
  }

  /** Copying entries never introduces a pack with repeated record keys. */
  lemma {:induction false} PutAllKeepsValues(es: Entries<PackValue>, more: Entries<PackValue>)
    requires Distinct(es)
    requires forall i :: 0 <= i < |es| ==> Distinct(es[i].1.records)
    requires forall i :: 0 <= i < |more| ==> Distinct(more[i].1.records)
    ensures Distinct(PutAll(es, more))
    ensures forall i :: 0 <= i < |PutAll(es, more)| ==> Distinct(PutAll(es, more)[i].1.records)
  {
    PutAllSpec(es, more);
    if more != [] {
      var n := |more| - 1;
      PutAllKeepsValues(es, more[..n]);
      var prev := PutAll(es, more[..n]);
      var i := Find(prev, more[n].0);
      assert PutAll(es, more) == if i < 0 then prev + [more[n]] else prev[i := more[n]];
    }
  }

  /** A well-formed database written by toJSON and read back into a new DBDatabase is the same database. */
  lemma DatabaseRoundTrip(v: DatabaseValue, stamp: Details)
    requires WellFormed(v)
    ensures ApplyDatabaseJson(EmptyDatabase(stamp), EncodeDatabase(v), stamp) == v
  {
    var ps := DecodePacks(EncodePacks(v.packs), stamp);
    forall i | 0 <= i < |v.packs| ensures ps[i] == v.packs[i] {
      PackRoundTrip(v.packs[i].1, stamp);
    }
    assert ps == v.packs;
    PutAllIntoEmpty(v.packs);
  }

  /** DBDatabase.createPack with a string name. */
  function CreatePackValue(v: DatabaseValue, name: string, stamp: Details): DatabaseValue {
    v.(packs := Put(v.packs, name, EmptyPack(name, stamp)))
  }

  /** DBDatabase.deletePack */
  function DeletePackValue(v: DatabaseValue, name: string): DatabaseValue {
    v.(packs := Remove(v.packs, name))
  }

  /** Filing a pack whose record keys are unique keeps a database well formed. */
  lemma PutPackKeepsWellFormed(v: DatabaseValue, k: string, p: PackValue)
    requires WellFormed(v) && Distinct(p.records)
    ensures WellFormed(v.(packs := Put(v.packs, k, p)))
  {
    PutSpec(v.packs, k, p);
    var i := Find(v.packs, k);
    if i < 0 {
      assert Put(v.packs, k, p) == v.packs + [(k, p)];
    } else {
      assert Put(v.packs, k, p) == v.packs[i := (k, p)];
    }
  }

  /**
   * createPack files a new empty pack under its name, replacing a pack of
   * the same name, touches no other pack and none of the database's own
   * fields, and keeps the database well formed.
   */
  lemma CreatePackSpec(v: DatabaseValue, name: string, stamp: Details)
    requires WellFormed(v)
    ensures var c := CreatePackValue(v, name, stamp);
      && WellFormed(c)
      && Lookup(c.packs, name) == Some(EmptyPack(name, stamp))
      && (forall k :: k != name ==> Lookup(c.packs, k) == Lookup(v.packs, k))
      && c.(packs := v.packs) == v
  {
    PutSpec(v.packs, name, EmptyPack(name, stamp));
    PutPackKeepsWellFormed(v, name, EmptyPack(name, stamp));
  }

  /**
   * deletePack takes the name out of the database, touches no other pack
   * and none of the database's own fields, and keeps it well formed.
   */
  lemma DeletePackSpec(v: DatabaseValue, name: string)
    requires WellFormed(v)
    ensures var d := DeletePackValue(v, name);
      && WellFormed(d)
      && Lookup(d.packs, name) == None
      && (forall k :: k != name ==> Lookup(d.packs, k) == Lookup(v.packs, k))
      && d.(packs := v.packs) == v
  {
    RemoveSpec(v.packs, name);
    RemoveKeepsRecordKeys(v.packs, name);
  }

  lemma RemoveKeepsRecordKeys(ps: Entries<PackValue>, name: string)
    requires Distinct(ps) && forall i :: 0 <= i < |ps| ==> Distinct(ps[i].1.records)
    ensures forall i :: 0 <= i < |Remove(ps, name)| ==> Distinct(Remove(ps, name)[i].1.records)
  {
    var i := Find(ps, name);
    if i >= 0 {
      RemoveAt(ps, i);
      var rest := ps[..i] + ps[i + 1..];
      forall a | 0 <= a < |rest| ensures Distinct(rest[a].1.records) {
        CutAt(ps, i, a);
      }
    }
  }

  /** Deleting a pack that was just created leaves the database without that name; any other pack is as before. */
  lemma CreateThenDeletePack(v: DatabaseValue, name: string, stamp: Details)
    requires WellFormed(v)
    ensures var after := DeletePackValue(CreatePackValue(v, name, stamp), name);
      && Lookup(after.packs, name) == None
      && forall k :: k != name ==> Lookup(after.packs, k) == Lookup(v.packs, k)
  {
    CreatePackSpec(v, name, stamp);
    DeletePackSpec(CreatePackValue(v, name, stamp), name);
  }

  // ---------------------------------------------------------------- indexes

  /** DBIndex.toJSON */
  function EncodeIndex(x: IndexValue): IndexJson {
    IndexJson(Some(x.id), Some(x.field), Some(x.records))
  }

  /** DBIndex.parseJSON applied to an index in state `x`. */
  function ApplyIndexJson(x: IndexValue, d: IndexJson): IndexValue {
    IndexValue(
      d.id.GetOr(x.id),
      d.field.GetOr(x.field),
      if d.records.Some? then PutAll(x.records, d.records.value) else x.records)
  }

  /** An index written by toJSON and read back by `new DBIndex(obj)` (which starts from a drawn id, no field and no buckets) is the same index. */
  lemma IndexRoundTrip(x: IndexValue, drawn: string)
    requires Distinct(x.records)
    ensures ApplyIndexJson(IndexValue(drawn, "", []), EncodeIndex(x)) == x
  {
    PutAllIntoEmpty(x.records);
  }
}
