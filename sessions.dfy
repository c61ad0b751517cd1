/**
 * The per-socket session of server.ts (IClientData) and the registry of
 * sessions. The session's handlers update its bound database in place; each
 * is proved to do what the handler function of module Server says.
 */
module Sessions {
  import opened Common
  import opened JsValues
  import opened JsStrings
  import opened Assoc
  import opened Shapes
  import opened RecordStore
  import opened Documents
  import opened Database
  import opened Query
  import opened Server

  /** The prefix of `randomID("C-")`. */
  const ClientPrefix := "C-"

  /** IClientData: one connected socket's session (the socket itself is not modelled). */
  class Client {
    var id: string
    var key: string
    var ip: string
    var db: DBDatabase?

    ghost predicate Valid()
      reads this, db, if db != null then db.Repr else {}
    {
      db != null ==> db.Valid()
    }

    /** The value of the bound database; None while none is bound. */
    ghost function Bound(): Option<DatabaseValue>
      requires Valid()
      reads this, db, if db != null then db.Repr else {}
    {
      if db == null then None else Some(db.Model())
    }

    /** The session a new connection gets: a drawn `C-` id, a drawn key, the peer's address and no database. */
    constructor (ip: string)
      ensures Valid() && StartsWith(id, ClientPrefix) && this.ip == ip && db == null
    {
      assert StartsWith(ClientPrefix, ClientPrefix);
      var drawn :| StartsWith(drawn, ClientPrefix);
      var secret: string :| true;
      id := drawn;
      key := secret;
      this.ip := ip;
      db := null;
    }

    /**
     * The rebind block: the bound database object is kept exactly when
     * `res.data.db` equals its name; otherwise the file named by `res.db` is
     * read and a new database object built from it is bound.
     */
    method Rebind(res: Value, load: Loader, stamp: Details) returns (r: Result<DBDatabase>)
      requires Valid()
      modifies this
      ensures Valid() && id == old(id) && key == old(key) && ip == old(ip)
      ensures old(db) == null ==> r.Fail? && db == null
      ensures DataField(res, "db").Ok? && old(db) != null ==>
        ((r.Ok? && db == old(db)) <==> LooseEq(DataField(res, "db").value, Some(Str(old(db.name)))))
      ensures r.Fail? ==> db == old(db)
      ensures r.Ok? && db != old(db) ==>
        && fresh(db) && DbFile(res).Ok? && load(DbFile(res).value).Ok?
        && Bound() == Some(Loaded(load(DbFile(res).value).value, stamp))
      ensures var b := Resolve(res, old(Bound()), load, stamp);
        && (b.Fail? ==> r == Fail(b.error) && db == old(db))
        && (b.Ok? ==> db != null && r == Ok(db as DBDatabase) && Bound() == Some(b.value.0))
        && (b.Ok? && b.value.1 ==> fresh(db) && fresh(db.Repr))
        && (b.Ok? && !b.value.1 ==> db == old(db))
    {
      var wanted := DataField(res, "db");
      if wanted.Fail? {
        return Fail(wanted.error);
      }
      if db == null {
        return Fail(TypeError);
      }
      if LooseEq(wanted.value, Some(Str(db.name))) {
        return Ok(db);
      }
      // `res.data` was read above, so `res.db` can be read too
      var file := DbFile(res).value;
      var doc := load(file);
      if doc.Fail? {
        return Fail(doc.error);
      }
      var loaded := new DBDatabase.FromJson(doc.value, stamp);
      db := loaded;
      r := Ok(loaded);
    }

    /** The Open handler. */
    method Open(frame: Result<Value>, load: Loader, stamp: Details) returns (actions: seq<Action>)
      requires Valid()
      modifies this
      ensures Valid() && id == old(id) && key == old(key) && ip == old(ip)
      ensures var o := OnOpen(frame, old(Bound()), load, stamp, id, key, ip);
        && actions == o.actions && Bound() == o.after
        && (o.reloaded ==> fresh(db)) && (!o.reloaded ==> db == old(db))
    {
      if frame.Fail? {
        return Refused(frame.error);
      }
      var res := frame.value;
      var file := DbFile(res);
      if file.Fail? {
        return Refused(file.error);
      }
      var doc := load(file.value);
      if doc.Fail? {
        return Refused(doc.error);
      }
      var loaded := new DBDatabase.FromJson(doc.value, stamp);
      db := loaded;
      var sync := SyncOf(res);
      if sync.Fail? {
        return Refused(sync.error);
      }
      actions := [Emit(OpenEvent, Opened(id, key, ip, loaded.name, sync.value))];
    }

    /** The CreatePack handler. */
    method CreatePack(frame: Result<Value>, load: Loader, stamp: Details) returns (actions: seq<Action>)
      requires Valid()
      modifies this, db
      ensures Valid() && id == old(id) && key == old(key) && ip == old(ip)
      ensures var o := OnCreatePack(frame, old(Bound()), load, stamp);
        && actions == o.actions && Bound() == o.after
        && (o.reloaded ==> fresh(db)) && (!o.reloaded ==> db == old(db))
    {
      if frame.Fail? {
        return Fails(CreateEvent, frame.error);
      }
      var res := frame.value;
      var bound := Rebind(res, load, stamp);
      if bound.Fail? {
        return Fails(CreateEvent, bound.error);
      }
      var d := bound.value;
      var arg := DataField(res, "name");
      if arg.Fail? {
        return Fails(CreateEvent, arg.error);
      }
      var pack := d.CreatePack(PackNameOf(arg.value), stamp);
      var sync := SyncOf(res);
      if sync.Fail? {
        return Fails(CreateEvent, sync.error);
      }
      actions := [Emit(CreateEvent, Success("Created Pack", PackName(pack.name), sync.value))];
    }

    /** The DeletePack handler. */
    method DeletePack(frame: Result<Value>, load: Loader, stamp: Details) returns (actions: seq<Action>)
      requires Valid()
      modifies this, db
      ensures Valid() && id == old(id) && key == old(key) && ip == old(ip)
      ensures var o := OnDeletePack(frame, old(Bound()), load, stamp);
        && actions == o.actions && Bound() == o.after
        && (o.reloaded ==> fresh(db)) && (!o.reloaded ==> db == old(db))
    {
      if frame.Fail? {
        return Fails(CreateEvent, frame.error);
      }
      var res := frame.value;
      var bound := Rebind(res, load, stamp);
      if bound.Fail? {
        return Fails(CreateEvent, bound.error);
      }
      var d := bound.value;
      var arg := DataField(res, "name");
      if arg.Fail? {
        return Fails(CreateEvent, arg.error);
      }
      var gone := d.DeletePack(StringOf(arg.value));
      if gone.None? {
        return Fails(CreateEvent, TypeError);
      }
      var sync := SyncOf(res);
      if sync.Fail? {
        return Fails(CreateEvent, sync.error);
      }
      actions := [Emit(DeleteEvent, Success("Deleted Pack", PackName(gone.value.name), sync.value))];
    }

    /** The CreateRec handler; `drawn` is the id randomID gave createRecord. */
    method CreateRec(frame: Result<Value>, load: Loader, stamp: Details, parse: string -> Result<Value>)
      returns (actions: seq<Action>, ghost drawn: string)
      requires Valid()
      modifies this, db, if db != null then db.Repr else {}
      ensures Valid() && id == old(id) && key == old(key) && ip == old(ip)
      ensures RecordIdShape(drawn)
      ensures var o := OnCreateRec(frame, old(Bound()), load, stamp, parse, drawn);
        && actions == o.actions && Bound() == o.after
        && (o.reloaded ==> fresh(db)) && (!o.reloaded ==> db == old(db))
    {
      drawn := RecordPrefix;
      assert RecordIdShape(drawn);
      if frame.Fail? {
        return Fails(CreateEvent, frame.error), drawn;
      }
      var res := frame.value;
      var bound := Rebind(res, load, stamp);
      if bound.Fail? {
        return Fails(CreateEvent, bound.error), drawn;
      }
      var d := bound.value;
      ghost var resolved := Resolve(res, old(Bound()), load, stamp);
      ghost var v := d.Model();
      assert resolved == Ok((v, resolved.value.1));
      actions, drawn := AddRecord(d, res, resolved.value.1, parse);
      assert OnCreateRec(frame, old(Bound()), load, stamp, parse, drawn) == CreateRecIn(res, v, resolved.value.1, parse, drawn);
    }

    /** The ReadRec handler. */
    method ReadRec(frame: Result<Value>, load: Loader, stamp: Details) returns (actions: seq<Action>)
      requires Valid()
      modifies this
      ensures Valid() && id == old(id) && key == old(key) && ip == old(ip)
      ensures var o := OnReadRec(frame, old(Bound()), load, stamp);
        && actions == o.actions && Bound() == o.after
        && (o.reloaded ==> fresh(db)) && (!o.reloaded ==> db == old(db))
    {
      if frame.Fail? {
        return Fails(ReadEvent, frame.error);
      }
      var res := frame.value;
      var bound := Rebind(res, load, stamp);
      if bound.Fail? {
        return Fails(ReadEvent, bound.error);
      }
      actions := ReadPack(bound.value, res);
    }
  }

  /** The part of ReadRec after the rebind: look up the pack, list the query's keys, run the filter. */
  method ReadPack(d: DBDatabase, res: Value) returns (actions: seq<Action>)
    requires d.Valid()
    ensures actions == ReadReply(res, d.Model())
  {
    var packArg := DataField(res, "pack");
    if packArg.Fail? {
      return Fails(ReadEvent, packArg.error);
    }
    ghost var v := d.Model();
    var key := StringOf(packArg.value);
    var found := d.GetPackByName(key);
    assert found.None? <==> Lookup(v.packs, key).None?;
    var query := DataField(res, "query");
    if query.Fail? {
      return Fails(ReadEvent, query.error);
    }
    var pairs := ObjectKeys(query.value);
    if pairs.Fail? || found.None? {
      return Fails(ReadEvent, TypeError);
    }
    var records := Values(found.value.records);
    assert records == Values(Lookup(v.packs, key).value.records);
    var kept := FilterRecords(records, pairs.value);
    MatchingIsKept(records, query.value.value, pairs.value);
    var sync := SyncOf(res);
    if sync.Fail? {
      return Fails(ReadEvent, sync.error);
    }
    actions := [Emit(ReadEvent, Success("Retrieved Record", Records(kept), sync.value))];
  }

  /** The part of CreateRec after the rebind: look up the pack and create the record in it. */
  method AddRecord(d: DBDatabase, res: Value, ghost re: bool, parse: string -> Result<Value>)
    returns (actions: seq<Action>, ghost drawn: string)
    requires d.Valid()
    modifies d.Repr
    ensures d.Valid() && RecordIdShape(drawn)
    ensures var o := CreateRecIn(res, old(d.Model()), re, parse, drawn);
      actions == o.actions && o.after == Some(d.Model())
  {
    drawn := RecordPrefix;
    assert RecordIdShape(drawn);
    ghost var v := d.Model();
    var packArg := DataField(res, "pack");
    if packArg.Fail? {
      return Fails(CreateEvent, packArg.error), drawn;
    }
    var packKey := StringOf(packArg.value);
    var found := d.GetPackByName(packKey);
    if found.None? {
      return Fails(CreateEvent, TypeError), drawn;
    }
    var p := found.value;
    var data := DataField(res, "record");
    if data.Fail? {
      return Fails(CreateEvent, data.error), drawn;
    }
    var rec := CreateRecordInPack(d, packKey, p, data.value, parse);
    if rec.Fail? {
      return Fails(CreateEvent, rec.error), drawn;
    }
    ghost var used :| RecordIdShape(used) && rec.value == Stored(RecordFrom(data.value, parse).value, used);
    drawn := used;
    var sync := SyncOf(res);
    if sync.Fail? {
      return Fails(CreateEvent, sync.error), drawn;
    }
    actions := [Emit(CreateEvent, Success("Created Rec", RecordId(IdOf(rec.value).GetOr(Null)), sync.value))];
  }

  /** The `clients` map: session id to session. */
  class ClientTable {
    var clients: map<string, Client>

    constructor ()
      ensures clients == map[]
    {
      clients := map[];
    }

    /** A new connection: a new session, registered under its id. */
    method Connect(ip: string) returns (c: Client)
      modifies this
      ensures fresh(c) && c.Valid() && StartsWith(c.id, ClientPrefix) && c.ip == ip && c.db == null
      ensures clients == old(clients)[c.id := c]
    {
      c := new Client(ip);
      clients := clients[c.id := c];
    }
  }
}
