/**
 * The socket handlers of server.ts. Each handler is specified by a function
 * from the parsed frame, the value of the session's bound database, the
 * database loader and the clock to the new bound database and the events
 * the socket emits; the session class of module Sessions follows them.
 */
module Server {
  import opened Common
  import opened JsValues
  import opened Assoc
  import opened Shapes
  import opened RecordStore
  import opened Documents
  import opened Query

  /** The events the server emits on the socket. */
  datatype Event = OpenEvent | CreateEvent | ReadEvent | DeleteEvent

  /** The JSON text of an emitted event. */
  datatype Reply =
    | Opened(id: string, key: string, ip: string, db: string, sync: Sync)
    | Answer(response: Response)

  /** What a handler does on its socket, in order. */
  datatype Action = Emit(event: Event, reply: Reply) | Disconnect

  /** ReadDatabase: the file name to the database document it holds, or the error reading or parsing it. */
  type Loader = string -> Result<DatabaseJson>

  /** The new bound database (None: none is bound), whether it was freshly read, and what was emitted. */
  datatype Outcome = Outcome(after: Option<DatabaseValue>, reloaded: bool, actions: seq<Action>)

  /** The reply of a caught error: `{success: false, message: err.message}`. */
  function Failure(e: Err): Reply {
    Answer(Response(false, ErrorMessage(e), None, None))
  }

  /** A handler's only action on a caught error: the failure reply on its event. */
  function Fails(ev: Event, e: Err): seq<Action> {
    [Emit(ev, Failure(e))]
  }

  /** Open's actions on a caught error: close the socket, then the failure reply. */
  function Refused(e: Err): seq<Action> {
    [Disconnect, Emit(OpenEvent, Failure(e))]
  }

  function Success(text: string, data: Payload, sync: Sync): Reply {
    Answer(Response(true, Text(text), Some(data), Some(sync)))
  }

  /** `res.data[k]` */
  function DataField(res: Value, k: string): Result<Option<Value>> {
    PropPath(Some(res), ["data", k])
  }

  /** The file handed to ReadDatabase: `${res.db}.json`. */
  function DbFile(res: Value): (r: Result<string>)
    ensures r.Ok? ==> |r.value| >= 5 && r.value[|r.value| - 5..] == ".json"
    ensures Prop(Some(res), "db").Ok? ==> r == Ok(StringOf(Prop(Some(res), "db").value) + ".json")
    ensures Prop(Some(res), "db").Fail? ==> r == Fail(Prop(Some(res), "db").error)
  {
    match Prop(Some(res), "db")
    case Fail(e) => Fail(e)
    case Ok(v) => Ok(StringOf(v) + ".json")
  }

  /** The echoed `sync: {time, id: res.sync.id}`. */
  function SyncOf(res: Value): Result<Sync> {
    match PropPath(Some(res), ["sync", "id"])
    case Fail(e) => Fail(e)
    case Ok(v) => Ok(Sync(v))
  }

  /** The database ReadDatabase yields: `new DBDatabase(obj)`. */
  function Loaded(doc: DatabaseJson, stamp: Details): DatabaseValue {
    ApplyDatabaseJson(EmptyDatabase(stamp), doc, stamp)
  }

  /**
   * The block every pack and record handler starts with: keep the bound
   * database when `res.data.db` equals its name, otherwise read
   * `${res.db}.json` and bind that. Reading `res.data.db` off a frame without
   * `data`, or the name of no database, throws a TypeError.
   */
  function Resolve(res: Value, before: Option<DatabaseValue>, load: Loader, stamp: Details): (r: Result<(DatabaseValue, bool)>)
    ensures before.None? ==> r.Fail?
    ensures r.Ok? && !r.value.1 ==> before == Some(r.value.0)
    ensures r.Ok? && r.value.1 ==>
      DbFile(res).Ok? && load(DbFile(res).value).Ok? && r.value.0 == Loaded(load(DbFile(res).value).value, stamp)
  {
    match DataField(res, "db")
    case Fail(e) => Fail(e)
    case Ok(wanted) =>
      if before.None? then Fail(TypeError)
      else if LooseEq(wanted, Some(Str(before.value.name))) then Ok((before.value, false))
      else
        match DbFile(res)
        case Fail(e) => Fail(e)
        case Ok(file) =>
          match load(file)
          case Fail(e) => Fail(e)
          case Ok(doc) => Ok((Loaded(doc, stamp), true))
  }

  /** `new DBPack(x)` with a value from the frame: a string is the name; anything else leaves the name empty, except an object's own string `name`. */
  function PackNameOf(arg: Option<Value>): string {
    match arg
    case Some(Str(s)) => s
    case Some(Obj(m)) => if "name" in m && m["name"].Str? then m["name"].s else ""
    case _ => ""
  }

  /** The Open handler: read `${res.db}.json`, bind it, and reply with the session's identity and the database name. */
  function OnOpen(frame: Result<Value>, before: Option<DatabaseValue>, load: Loader, stamp: Details,
                  id: string, key: string, ip: string): (o: Outcome)
    ensures |o.actions| > 0 && o.actions[|o.actions| - 1].Emit? && o.actions[|o.actions| - 1].event == OpenEvent
    ensures !o.reloaded ==> o.after == before && o.actions[0] == Disconnect
    ensures o.reloaded ==>
      && frame.Ok? && DbFile(frame.value).Ok? && load(DbFile(frame.value).value).Ok?
      && o.after == Some(Loaded(load(DbFile(frame.value).value).value, stamp))
  {
    match frame
    case Fail(e) => Outcome(before, false, Refused(e))
    case Ok(res) =>
      match DbFile(res)
      case Fail(e) => Outcome(before, false, Refused(e))
      case Ok(file) =>
        match load(file)
        case Fail(e) => Outcome(before, false, Refused(e))
        case Ok(doc) =>
          var v := Loaded(doc, stamp);
          match SyncOf(res)
          case Fail(e) => Outcome(Some(v), true, Refused(e))
          case Ok(sync) => Outcome(Some(v), true, [Emit(OpenEvent, Opened(id, key, ip, v.name, sync))])
  }

  /** The CreatePack handler: `db.createPack(res.data.name)`. */
  function OnCreatePack(frame: Result<Value>, before: Option<DatabaseValue>, load: Loader, stamp: Details): (o: Outcome)
    ensures |o.actions| == 1 && o.actions[0].Emit? && o.actions[0].event == CreateEvent
    ensures o.after.None? <==> before.None?
    ensures o.reloaded ==> before.Some?
  {
    match frame
    case Fail(e) => Outcome(before, false, Fails(CreateEvent, e))
    case Ok(res) =>
      match Resolve(res, before, load, stamp)
      case Fail(e) => Outcome(before, false, Fails(CreateEvent, e))
      case Ok((v, re)) => CreatePackIn(res, v, re, stamp)
  }

  /** CreatePack once the database `v` is bound (`re`: freshly read). */
  function CreatePackIn(res: Value, v: DatabaseValue, re: bool, stamp: Details): (o: Outcome)
    ensures o.reloaded == re && o.after.Some?
  {
    match DataField(res, "name")
    case Fail(e) => Outcome(Some(v), re, Fails(CreateEvent, e))
    case Ok(arg) =>
      var name := PackNameOf(arg);
      var after := CreatePackValue(v, name, stamp);
      match SyncOf(res)
      case Fail(e) => Outcome(Some(after), re, Fails(CreateEvent, e))
      case Ok(sync) => Outcome(Some(after), re, [Emit(CreateEvent, Success("Created Pack", PackName(name), sync))])
  }

  /** The DeletePack handler: `db.deletePack(res.data.name)`; its errors go out on the Create event. */
  function OnDeletePack(frame: Result<Value>, before: Option<DatabaseValue>, load: Loader, stamp: Details): (o: Outcome)
    ensures |o.actions| == 1 && o.actions[0].Emit? && o.actions[0].event in {CreateEvent, DeleteEvent}
    ensures o.after.None? <==> before.None?
    ensures o.reloaded ==> before.Some?
  {
    match frame
    case Fail(e) => Outcome(before, false, Fails(CreateEvent, e))
    case Ok(res) =>
      match Resolve(res, before, load, stamp)
      case Fail(e) => Outcome(before, false, Fails(CreateEvent, e))
      case Ok((v, re)) => DeletePackIn(res, v, re)
  }

  /** DeletePack once the database `v` is bound. */
  function DeletePackIn(res: Value, v: DatabaseValue, re: bool): (o: Outcome)
    ensures o.reloaded == re && o.after.Some?
  {
    match DataField(res, "name")
    case Fail(e) => Outcome(Some(v), re, Fails(CreateEvent, e))
    case Ok(arg) =>
      var key := StringOf(arg);
      var after := DeletePackValue(v, key);
      match Lookup(v.packs, key)
      case None => Outcome(Some(after), re, Fails(CreateEvent, TypeError))
      case Some(gone) =>
        match SyncOf(res)
        case Fail(e) => Outcome(Some(after), re, Fails(CreateEvent, e))
        case Ok(sync) => Outcome(Some(after), re, [Emit(DeleteEvent, Success("Deleted Pack", PackName(gone.name), sync))])
  }

  /** The database after `pack.createRecord` stored `rec` in the pack filed under `key`. */
  function WithRecord(v: DatabaseValue, key: string, p: PackValue, rec: Fields): DatabaseValue {
    v.(packs := Put(v.packs, key, p.(records := Insert(p.records, rec))))
  }

  /** The CreateRec handler: `db.getPackByName(res.data.pack).createRecord(res.data.record)`, with the id `drawn` for a record without one. */
  function OnCreateRec(frame: Result<Value>, before: Option<DatabaseValue>, load: Loader, stamp: Details,
                       parse: string -> Result<Value>, drawn: string): (o: Outcome)
    ensures |o.actions| == 1 && o.actions[0].Emit? && o.actions[0].event == CreateEvent
    ensures o.after.None? <==> before.None?
    ensures o.reloaded ==> before.Some?
  {
    match frame
    case Fail(e) => Outcome(before, false, Fails(CreateEvent, e))
    case Ok(res) =>
      match Resolve(res, before, load, stamp)
      case Fail(e) => Outcome(before, false, Fails(CreateEvent, e))
      case Ok((v, re)) => CreateRecIn(res, v, re, parse, drawn)
  }

  /** CreateRec once the database `v` is bound. */
  function CreateRecIn(res: Value, v: DatabaseValue, re: bool, parse: string -> Result<Value>, drawn: string): (o: Outcome)
    ensures o.reloaded == re && o.after.Some?
  {
    match DataField(res, "pack")
    case Fail(e) => Outcome(Some(v), re, Fails(CreateEvent, e))
    case Ok(packArg) =>
      var key := StringOf(packArg);
      match Lookup(v.packs, key)
      case None => Outcome(Some(v), re, Fails(CreateEvent, TypeError))
      case Some(p) =>
        match DataField(res, "record")
        case Fail(e) => Outcome(Some(v), re, Fails(CreateEvent, e))
        case Ok(data) =>
          match RecordFrom(data, parse)
          case Fail(e) => Outcome(Some(v), re, Fails(CreateEvent, e))
          case Ok(input) =>
            var rec := Stored(input, drawn);
            var after := WithRecord(v, key, p, rec);
            match SyncOf(res)
            case Fail(e) => Outcome(Some(after), re, Fails(CreateEvent, e))
            case Ok(sync) => Outcome(Some(after), re, [Emit(CreateEvent, Success("Created Rec", RecordId(IdOf(rec).GetOr(Null)), sync))])
  }

  /** The ReadRec handler: the records of `res.data.pack` that match `res.data.query`. */
  function OnReadRec(frame: Result<Value>, before: Option<DatabaseValue>, load: Loader, stamp: Details): (o: Outcome)
    ensures |o.actions| == 1 && o.actions[0].Emit? && o.actions[0].event == ReadEvent
    ensures o.after.None? <==> before.None?
    ensures o.after == before || o.reloaded
    ensures o.reloaded ==> before.Some?
  {
    match frame
    case Fail(e) => Outcome(before, false, Fails(ReadEvent, e))
    case Ok(res) =>
      match Resolve(res, before, load, stamp)
      case Fail(e) => Outcome(before, false, Fails(ReadEvent, e))
      case Ok((v, re)) => Outcome(Some(v), re, ReadReply(res, v))
  }

  /** What ReadRec emits once the database `v` is bound. */
  function ReadReply(res: Value, v: DatabaseValue): seq<Action> {
    match DataField(res, "pack")
    case Fail(e) => Fails(ReadEvent, e)
    case Ok(packArg) =>
      match DataField(res, "query")
      case Fail(e) => Fails(ReadEvent, e)
      case Ok(q) =>
        // Object.keys(query) throws on null or undefined, `pack.records` on a missing pack
        if q.None? || q.value.Null? || Lookup(v.packs, StringOf(packArg)).None? then Fails(ReadEvent, TypeError)
        else
          var kept := Kept(Values(Lookup(v.packs, StringOf(packArg)).value.records), q.value);
          match SyncOf(res)
          case Fail(e) => Fails(ReadEvent, e)
          case Ok(sync) => [Emit(ReadEvent, Success("Retrieved Record", Records(kept), sync))]
  }

  // ---------------------------------------------------------------- properties of the handlers

  /** The bound database, when there is one, is well formed. */
  ghost predicate BoundOk(b: Option<DatabaseValue>) {
    b.Some? ==> WellFormed(b.value)
  }

  /** A frame that is not JSON is answered with the caught error and leaves the session as it was. */
  lemma UnparsedFrameChangesNothing(e: Err, before: Option<DatabaseValue>, load: Loader, stamp: Details,
                                    parse: string -> Result<Value>, drawn: string, id: string, key: string, ip: string)
    ensures OnOpen(Fail(e), before, load, stamp, id, key, ip) == Outcome(before, false, [Disconnect, Emit(OpenEvent, Failure(e))])
    ensures OnCreatePack(Fail(e), before, load, stamp) == Outcome(before, false, [Emit(CreateEvent, Failure(e))])
    ensures OnDeletePack(Fail(e), before, load, stamp) == Outcome(before, false, [Emit(CreateEvent, Failure(e))])
    ensures OnCreateRec(Fail(e), before, load, stamp, parse, drawn) == Outcome(before, false, [Emit(CreateEvent, Failure(e))])
    ensures OnReadRec(Fail(e), before, load, stamp) == Outcome(before, false, [Emit(ReadEvent, Failure(e))])
  {
  }

  /**
   * The rebind rule: with a database bound, it is kept exactly when
   * `res.data.db` equals its name; otherwise the database read from the file
   * named by `res.db` (not `res.data.db`) is bound, and it is well formed.
   * Nothing is bound while no database is.
   */
  lemma ResolveSpec(res: Value, before: Option<DatabaseValue>, load: Loader, stamp: Details)
    requires BoundOk(before)
    ensures var r := Resolve(res, before, load, stamp);
      && (r.Ok? ==> WellFormed(r.value.0))
      && (r.Ok? && !r.value.1 ==> before == Some(r.value.0))
      && (r.Ok? && r.value.1 ==>
            DbFile(res).Ok? && load(DbFile(res).value).Ok? && r.value.0 == Loaded(load(DbFile(res).value).value, stamp))
      && (before.Some? && DataField(res, "db").Ok? ==>
            ((r.Ok? && !r.value.1) <==> LooseEq(DataField(res, "db").value, Some(Str(before.value.name)))))
      && (before.Some? && DataField(res, "db").Ok? && !LooseEq(DataField(res, "db").value, Some(Str(before.value.name))) ==>
            (r.Ok? <==> DbFile(res).Ok? && load(DbFile(res).value).Ok?))
      && (DataField(res, "db").Fail? ==> r == Fail(DataField(res, "db").error))
      && (before.None? ==> r.Fail?)
  {
    var r := Resolve(res, before, load, stamp);
    if r.Ok? && r.value.1 {
      var doc := load(DbFile(res).value).value;
      assert r.value.0 == Loaded(doc, stamp);
      ApplyDatabaseJsonWellFormed(EmptyDatabase(stamp), doc, stamp);
    }
  }

  /** Open binds a well-formed database, and every failure disconnects the socket before replying. */
  lemma OpenSpec(frame: Result<Value>, before: Option<DatabaseValue>, load: Loader, stamp: Details, id: string, key: string, ip: string)
    requires BoundOk(before)
    ensures var o := OnOpen(frame, before, load, stamp, id, key, ip);
      && BoundOk(o.after)
      && (!o.reloaded ==> o.after == before)
      && |o.actions| > 0 && o.actions[|o.actions| - 1].Emit? && o.actions[|o.actions| - 1].event == OpenEvent
      && (o.actions[0].Disconnect? <==> o.actions[|o.actions| - 1].reply.Answer?)
      && (o.actions[0].Emit? ==> o.after.Some? && o.actions == [Emit(OpenEvent, Opened(id, key, ip, o.after.value.name, o.actions[0].reply.sync))])
      && (o.reloaded <==> frame.Ok? && DbFile(frame.value).Ok? && load(DbFile(frame.value).value).Ok?)
      && (o.reloaded ==> o.after == Some(Loaded(load(DbFile(frame.value).value).value, stamp)))
  {
    if frame.Ok? && DbFile(frame.value).Ok? && load(DbFile(frame.value).value).Ok? {
      ApplyDatabaseJsonWellFormed(EmptyDatabase(stamp), load(DbFile(frame.value).value).value, stamp);
    }
  }

  /** CreatePack on a bound database keeps it well formed, and a success reply names a pack now filed, empty, under that name. */
  lemma CreatePackInSpec(res: Value, v: DatabaseValue, re: bool, stamp: Details)
    requires WellFormed(v)
    ensures var o := CreatePackIn(res, v, re, stamp);
      && BoundOk(o.after) && o.reloaded == re
      && |o.actions| == 1 && o.actions[0].Emit? && o.actions[0].event == CreateEvent
      && (o.actions[0].reply.response.success ==>
            o.actions[0].reply.response.data.Some? && o.actions[0].reply.response.data.value.PackName? &&
            var n := o.actions[0].reply.response.data.value.name;
            o.after.Some? && Lookup(o.after.value.packs, n) == Some(EmptyPack(n, stamp)))
  {
    if DataField(res, "name").Ok? {
      CreatePackSpec(v, PackNameOf(DataField(res, "name").value), stamp);
    }
  }

  /** The whole CreatePack handler keeps the bound database well formed and answers once on the Create event. */
  lemma CreatePackSpecified(frame: Result<Value>, before: Option<DatabaseValue>, load: Loader, stamp: Details)
    requires BoundOk(before)
    ensures var o := OnCreatePack(frame, before, load, stamp);
      && BoundOk(o.after)
      && |o.actions| == 1 && o.actions[0].Emit? && o.actions[0].event == CreateEvent
      && (o.actions[0].reply.response.success ==>
            o.actions[0].reply.response.data.Some? && o.actions[0].reply.response.data.value.PackName? &&
            var n := o.actions[0].reply.response.data.value.name;
            o.after.Some? && Lookup(o.after.value.packs, n) == Some(EmptyPack(n, stamp)))
  {
    if frame.Ok? {
      ResolveSpec(frame.value, before, load, stamp);
      var r := Resolve(frame.value, before, load, stamp);
      if r.Ok? {
        CreatePackInSpec(frame.value, r.value.0, r.value.1, stamp);
      }
    }
  }

  /**
   * DeletePack on a bound database keeps it well formed and leaves no pack
   * under the requested name; its success reply goes out on the Delete
   * event and every failure on the Create event.
   */
  lemma DeletePackInSpec(res: Value, v: DatabaseValue, re: bool)
    requires WellFormed(v)
    ensures var o := DeletePackIn(res, v, re);
      && BoundOk(o.after) && o.after.Some? && o.reloaded == re
      && |o.actions| == 1 && o.actions[0].Emit? && o.actions[0].reply.Answer?
      && (o.actions[0].event == DeleteEvent <==> o.actions[0].reply.response.success)
      && (o.actions[0].event != DeleteEvent ==> o.actions[0].event == CreateEvent)
      && (DataField(res, "name").Ok? ==> Lookup(o.after.value.packs, StringOf(DataField(res, "name").value)) == None)
  {
    if DataField(res, "name").Ok? {
      DeletePackSpec(v, StringOf(DataField(res, "name").value));
    }
  }

  /** The whole DeletePack handler: the same, with failures before the binding answered on the Create event too. */
  lemma DeletePackSpecified(frame: Result<Value>, before: Option<DatabaseValue>, load: Loader, stamp: Details)
    requires BoundOk(before)
    ensures var o := OnDeletePack(frame, before, load, stamp);
      && BoundOk(o.after)
      && |o.actions| == 1 && o.actions[0].Emit? && o.actions[0].reply.Answer?
      && (o.actions[0].event == DeleteEvent <==> o.actions[0].reply.response.success)
      && (o.actions[0].event != DeleteEvent ==> o.actions[0].event == CreateEvent)
    ensures frame.Ok? && Resolve(frame.value, before, load, stamp).Ok? && DataField(frame.value, "name").Ok? ==>
      var o := OnDeletePack(frame, before, load, stamp);
      o.after.Some? && Lookup(o.after.value.packs, StringOf(DataField(frame.value, "name").value)) == None
  {
    if frame.Ok? {
      ResolveSpec(frame.value, before, load, stamp);
      var r := Resolve(frame.value, before, load, stamp);
      if r.Ok? {
        DeletePackInSpec(frame.value, r.value.0, r.value.1);
      }
    }
  }

  /**
   * What a CreateRec outcome holds once the record `rec` is stored in pack
   * `p` of `v` under `key`: the record sits in that pack under the key its
   * `$id` names, the pack is exactly `p` with the record inserted, no other
   * pack changes, the database stays well formed, and the one emitted reply
   * carries the record's `$id` when it reports success.
   */
  ghost predicate RecordCreated(o: Outcome, v: DatabaseValue, key: string, p: PackValue, rec: Fields) {
    && o.after.Some? && BoundOk(o.after)
    && Lookup(o.after.value.packs, key).Some?
    && Lookup(Lookup(o.after.value.packs, key).value.records, KeyOf(rec)) == Some(rec)
    && Lookup(o.after.value.packs, key) == Some(p.(records := Insert(p.records, rec)))
    && (forall k :: k != key ==> Lookup(o.after.value.packs, k) == Lookup(v.packs, k))
    && |o.actions| == 1 && o.actions[0].Emit? && o.actions[0].event == CreateEvent && o.actions[0].reply.Answer?
    && IdOf(rec).Some?
    && (o.actions[0].reply.response.success ==>
          o.actions[0].reply.response.data == Some(RecordId(IdOf(rec).value)) && StringOf(IdOf(rec)) == KeyOf(rec))
  }

  /** When CreateRec reaches its pack and its record, the record is stored as RecordCreated says. */
  lemma CreateRecInSpec(res: Value, v: DatabaseValue, re: bool, parse: string -> Result<Value>, drawn: string,
                        packArg: Option<Value>, p: PackValue, data: Option<Value>, input: Fields)
    requires WellFormed(v) && RecordIdShape(drawn)
    requires DataField(res, "pack") == Ok(packArg) && Lookup(v.packs, StringOf(packArg)) == Some(p)
    requires DataField(res, "record") == Ok(data) && RecordFrom(data, parse) == Ok(input)
    ensures RecordCreated(CreateRecIn(res, v, re, parse, drawn), v, StringOf(packArg), p, Stored(input, drawn))
  {
    var key := StringOf(packArg);
    var rec := Stored(input, drawn);
    var i := Find(v.packs, key);
    assert v.packs[i].1 == p;
    CreateRecordSpec(p.records, input, drawn);
    var p' := p.(records := Insert(p.records, rec));
    PutPackKeepsWellFormed(v, key, p');
    PutSpec(v.packs, key, p');
    var o := CreateRecIn(res, v, re, parse, drawn);
    assert o.after == Some(WithRecord(v, key, p, rec)) && WithRecord(v, key, p, rec).packs == Put(v.packs, key, p');
  }

  /** The same for the whole CreateRec handler, once the frame resolves to `v`. */
  lemma CreateRecSpecified(res: Value, before: Option<DatabaseValue>, load: Loader, stamp: Details,
                           parse: string -> Result<Value>, drawn: string, v: DatabaseValue, re: bool, packArg: Option<Value>,
                           p: PackValue, data: Option<Value>, input: Fields)
    requires BoundOk(before) && RecordIdShape(drawn)
    requires Resolve(res, before, load, stamp) == Ok((v, re))
    requires DataField(res, "pack") == Ok(packArg) && Lookup(v.packs, StringOf(packArg)) == Some(p)
    requires DataField(res, "record") == Ok(data) && RecordFrom(data, parse) == Ok(input)
    ensures RecordCreated(OnCreateRec(Ok(res), before, load, stamp, parse, drawn), v, StringOf(packArg), p, Stored(input, drawn))
  {
    ResolveSpec(res, before, load, stamp);
    CreateRecInSpec(res, v, re, parse, drawn, packArg, p, data, input);
    assert OnCreateRec(Ok(res), before, load, stamp, parse, drawn) == CreateRecIn(res, v, re, parse, drawn);
  }

  /** What ReadRec emits on a bound database: one reply on the Read event, listing exactly the pack's records that satisfy the query. */
  lemma ReadReplySpec(res: Value, v: DatabaseValue)
    ensures var acts := ReadReply(res, v);
      && |acts| == 1 && acts[0].Emit? && acts[0].event == ReadEvent && acts[0].reply.Answer?
      && (acts[0].reply.response.success ==>
            && DataField(res, "pack").Ok? && DataField(res, "query").Ok? && DataField(res, "query").value.Some?
            && Lookup(v.packs, StringOf(DataField(res, "pack").value)).Some?
            && var q := DataField(res, "query").value.value;
            var p := Lookup(v.packs, StringOf(DataField(res, "pack").value)).value;
            acts[0].reply.response.data == Some(Records(Kept(Values(p.records), q)))
            && forall r :: r in Kept(Values(p.records), q) <==> r in Values(p.records) && Satisfies(r, q))
  {
    var acts := ReadReply(res, v);
    if acts[0].reply.response.success {
      var q := DataField(res, "query").value.value;
      var p := Lookup(v.packs, StringOf(DataField(res, "pack").value)).value;
      KeptSpec(Values(p.records), q);
    }
  }

  /** ReadRec changes nothing but the binding, and a success reply lists exactly the pack's records that satisfy the query. */
  lemma ReadRecSpecified(res: Value, before: Option<DatabaseValue>, load: Loader, stamp: Details)
    requires BoundOk(before)
    ensures var o := OnReadRec(Ok(res), before, load, stamp);
      && BoundOk(o.after)
      && (Resolve(res, before, load, stamp).Fail? ==> o.after == before)
      && (Resolve(res, before, load, stamp).Ok? ==> o.after == Some(Resolve(res, before, load, stamp).value.0))
      && |o.actions| == 1 && o.actions[0].Emit? && o.actions[0].event == ReadEvent
      && (o.actions[0].reply.response.success ==>
            var q := DataField(res, "query").value.value;
            var p := Lookup(o.after.value.packs, StringOf(DataField(res, "pack").value)).value;
            o.actions[0].reply.response.data == Some(Records(Kept(Values(p.records), q)))
            && forall r :: r in Kept(Values(p.records), q) <==> r in Values(p.records) && Satisfies(r, q))
  {
    ResolveSpec(res, before, load, stamp);
    var r := Resolve(res, before, load, stamp);
    if r.Ok? {
      ReadReplySpec(res, r.value.0);
    }
  }

  /**
   * The shape of a reply: a success carries a fixed message, its data and the
   * request's own `sync.id`; a failure carries the error's message and
   * neither data nor sync.
   */
  predicate Shaped(res: Value, a: Action) {
    && a.Emit? && a.reply.Answer?
    && var r := a.reply.response;
    && (r.success ==> r.message.Text? && r.data.Some? && SyncOf(res).Ok? && r.sync == Some(SyncOf(res).value))
    && (!r.success ==> r.message.ErrorMessage? && r.data.None? && r.sync.None?)
  }

  /** Every reply of the pack and record handlers to a parsed frame is shaped so. */
  lemma RepliesShaped(res: Value, before: Option<DatabaseValue>, load: Loader, stamp: Details,
                      parse: string -> Result<Value>, drawn: string)
    ensures forall a :: a in OnCreatePack(Ok(res), before, load, stamp).actions ==> Shaped(res, a)
    ensures forall a :: a in OnDeletePack(Ok(res), before, load, stamp).actions ==> Shaped(res, a)
    ensures forall a :: a in OnCreateRec(Ok(res), before, load, stamp, parse, drawn).actions ==> Shaped(res, a)
    ensures forall a :: a in OnReadRec(Ok(res), before, load, stamp).actions ==> Shaped(res, a)
  {
    match Resolve(res, before, load, stamp)
    case Fail(e) =>
    case Ok((v, re)) =>
      CreatePackInShaped(res, v, re, stamp);
      DeletePackInShaped(res, v, re);
      CreateRecInShaped(res, v, re, parse, drawn);
      ReadReplyShaped(res, v);
  }

  lemma CreatePackInShaped(res: Value, v: DatabaseValue, re: bool, stamp: Details)
    ensures forall a :: a in CreatePackIn(res, v, re, stamp).actions ==> Shaped(res, a)
  {
  }

  lemma DeletePackInShaped(res: Value, v: DatabaseValue, re: bool)
    ensures forall a :: a in DeletePackIn(res, v, re).actions ==> Shaped(res, a)
  {
  }

  lemma CreateRecInShaped(res: Value, v: DatabaseValue, re: bool, parse: string -> Result<Value>, drawn: string)
    ensures forall a :: a in CreateRecIn(res, v, re, parse, drawn).actions ==> Shaped(res, a)
  {
  }

  lemma ReadReplyShaped(res: Value, v: DatabaseValue)
    ensures forall a :: a in ReadReply(res, v) ==> Shaped(res, a)
  {
  }

  /** Open's success reply echoes the request's `sync.id`; its failure reply carries only the error. */
  lemma OpenReplyShaped(res: Value, before: Option<DatabaseValue>, load: Loader, stamp: Details, id: string, key: string, ip: string)
    ensures forall a :: a in OnOpen(Ok(res), before, load, stamp, id, key, ip).actions && a.Emit? ==>
      if a.reply.Opened? then SyncOf(res) == Ok(a.reply.sync) else Shaped(res, a) && !a.reply.response.success
  {
  }

  /** A CreatePack frame without `sync` is answered with a failure although the pack has already been created. */
  lemma CreatePackWithoutSyncStillCreates(stamp: Details, load: Loader)
    ensures var res := Obj(map["data" := Obj(map["db" := Str("shop"), "name" := Str("items")])]);
      var before := Some(DatabaseValue("shop", None, [], stamp));
      var o := OnCreatePack(Ok(res), before, load, stamp);
      && o.actions == [Emit(CreateEvent, Failure(TypeError))]
      && o.after == Some(DatabaseValue("shop", None, [("items", EmptyPack("items", stamp))], stamp))
  {
    var data := map["db" := Str("shop"), "name" := Str("items")];
    var res := Obj(map["data" := Obj(data)]);
    assert ["data", "db"][1..] == ["db"] && ["data", "name"][1..] == ["name"];
    assert DataField(res, "db") == Ok(Some(Str("shop")));
    assert DataField(res, "name") == Ok(Some(Str("items"))) by {
      assert Prop(Some(Obj(data)), "name") == Ok(Some(Str("items")));
    }
    assert Put([], "items", EmptyPack("items", stamp)) == [("items", EmptyPack("items", stamp))];
    assert PropPath(Some(res), ["sync", "id"]) == Fail(TypeError) by {
      assert Prop(Some(res), "sync") == Ok(None);
      assert ["sync", "id"][1..] == ["id"];
    }
  }
}
