# draginDB core, modelled in Dafny

draginDB is a small document store served over a socket. A **database** holds
named **packs** and a pack holds **records**: JSON objects filed under their
`$id`. A **DBIndex** files the `$id`s of a pack's records under the text of
one field. The server keeps one **session** per connection, bound to at most
one database, and answers five requests: Open, CreatePack, DeletePack,
CreateRec and ReadRec. Tagged strings `$Kind[value]` (DBToken) and the
path wrapper DBPath are built on them.

The project models:

- `database.ts` as classes whose methods update their fields in place
  (module `Database`). Each class has a `Model()` value (module `Documents`),
  and each method's new state is proved equal to a function of the old state
  from modules `Documents` and `RecordStore`. The properties are then proved
  as lemmas about those functions.
- The token helpers of `interface.ts`, and their copy in `drafting.ts`, as
  pure string functions (modules `Tokens` and `Drafting`).
- Each handler of `server.ts` as a function from the parsed frame and the
  bound database's value to the new binding and the emitted events (module
  `Server`). The mutable session (`IClientData`) and the `clients` registry
  are classes (module `Sessions`), whose handler methods are proved to follow
  those functions. The ReadRec filter is a nested loop (module `Query`),
  proved equal to a reference definition that does not depend on the order of
  the query's keys.

Supporting modules:

- `Common`: `Option`, `Result`, and the thrown errors.
- `JsValues`: parsed JSON values, truthiness, `String(x)`, loose `==`, and
  property reads that may throw.
- `JsStrings`: `startsWith`, `endsWith`, `indexOf`, and `substring` with its
  argument clamping and swapping.
- `Assoc`: a JavaScript object used as a dictionary, modelled as an
  insertion-ordered association list.
- `Shapes`: the document types of `interface.ts`.
- `RandomIds`: the id generator.

The parts outside the program are parameters:

- JSON.parse is `parse: string -> Result<Value>`.
- `ReadDatabase` is `load: Loader`, which maps a file name to a database
  document or an error.
- JSON.parse in the text constructor of DBDatabase is
  `read: string -> Option<DatabaseJson>`.
- The clock reads are `stamp: Details`.
- `randomID(prefix)` is a nondeterministic choice of a string with that
  prefix. `RandomIds.FreshIdExists` shows that such a string exists that is
  not in use.

Behaviour the code has and the model keeps as written:

- `processPack` returns as soon as a record's field value is falsy. The
  buckets it had are kept and later records are not scanned. A plain "skip"
  reading of the method would differ.
- `deleteRecord(field, val)` deletes the key named by the matched record's
  `$id`, not the key the record was found under. These are the same key only
  while every key names its record's `$id` (`IdsConsistent`).
  `RecordStore.DeleteByFieldMissesMisfiledRecord` is a pack where they
  differ.
- `getTokenData` cuts the value with `substring` between the first `[` and
  the first `]`. A `]` before the first `[` swaps the ends
  (`Tokens.KindWithBracketBreaksRoundTrip`).
- The rebind step compares `res.data.db` with the bound database's name, but
  reads the file named by `res.db`.
- DeletePack sends its failures on the Create event.
- A handler that fails on a missing `sync` has already changed the database
  (`Server.CreatePackWithoutSyncStillCreates`).

## Model

| member | source | states |
|---|---|---|
| Tokens.HasToken | interface.ts:31-34 | A string that carries token `t` is at least `$t[]` long: `$` first, `[` right after `t`, and `]` last |
| Tokens.GetTokenData | interface.ts:36-44 | Accepts exactly the strings that start with `$`, end with `]` and hold a `[`. The key is the text after `$` up to the first `[`, and none of it is `[`. If no `]` comes before that `[`, the value runs to the first `]` and holds no `]`. Otherwise the value is the swapped slice `s[j..i+1]`, from that first `]` (at `j`) through the first `[` (at `i`) |
| Tokens.HasTokenHasData | interface.ts:31-44 | A string carrying token `t` is accepted by getTokenData, and for `t` without `[` the key is `t` |
| Tokens.TokenRoundTrip | interface.ts:31-44 | For `t` without brackets and `v` without `]`, `$t[v]` has token `t` and getTokenData gives back `(t, v)` |
| Tokens.KindWithBracketBreaksRoundTrip | interface.ts:38-39 | `$a]b[c]` gives key `a]b` and value `]b[`: the slice between the first `]` and the first `[` |
| Tokens.NewPath | interface.ts:63-87 | A non-`$Path[..]` string is stored unchanged. A `$Path[..]` string stores the `]`-free value it wraps. data, toString, valueOf and toJSON all return the stored path |
| Tokens.PathRoundTrip | interface.ts:67-74 | Wrapping a `]`-free path as `$Path[p]` gives `p` back |
| Drafting.NewDraftPath | drafting.ts:42-53 | The draft DBPath unwraps `$Path[..]` and keeps any other string. It stores the same path as the DBPath of interface.ts |
| Drafting.DraftPathRoundTrip | drafting.ts:46-52 | Wrapping a `]`-free `p` as `$Path[p]` gives `p` back |
| RandomIds.FreshIdExists | database.ts:122 | For every prefix and every finite set of ids in use, some id with the prefix is not in use |
| Assoc.PutSpec | database.ts:129 | Assignment `obj[k] = v` keeps keys unique, stores `v` under `k` and leaves every other key's value alone |
| Assoc.RemoveSpec | database.ts:170 | `delete obj[k]` keeps keys unique, leaves nothing under `k` and every other key's value alone |
| Assoc.PutAllSpec | database.ts:182-186 | Copying entries one by one keeps keys unique. For unique copied keys, each copied key holds its copied value and every other key keeps its value |
| RecordStore.RecordFrom | database.ts:110-120 | An object argument is the record. A string is parsed: a parse error is rethrown, a parsed object is the record, and any other parsed value throws TypeError. Any other argument throws TypeError |
| RecordStore.Stored | database.ts:122-127 | A record with a truthy `$id` is kept as it is. Otherwise the drawn id is written into `$id` and no other field changes. The stored record always has a truthy `$id` |
| RecordStore.CreateRecordSpec | database.ts:108-132 | After createRecord, `records[rec.$id]` is the record and an entry under that key is overwritten. Every other entry is unchanged. A fresh drawn id is appended at the end. Key uniqueness and key/`$id` agreement are kept |
| RecordStore.FirstMatch | database.ts:139-143 | Gives the position of the first record, in iteration order, with `record[field] == val`; every earlier record fails the test; -1 means none passes |
| RecordStore.Select | database.ts:134-152 | getRecord returns only a record of the pack. By id it finds one exactly when the key is present. By field the record it returns passes `record[field] == val`, and null means no record passes |
| RecordStore.Delete | database.ts:154-176 | deleteRecord returns what getRecord returns. It leaves the records unchanged when it returns null, and never adds an entry |
| RecordStore.DeleteMatchesSelect | database.ts:134-176 | deleteRecord returns what getRecord returns for the same arguments. With a match it cuts out exactly that entry and nothing else. With no match the records are unchanged. Keys stay unique, and key/`$id` agreement is kept when it held. By id this needs only unique keys; by field it needs the keys to name the records' `$id`s |
| RecordStore.CreateThenDelete | database.ts:108-176 | A record just created is found by its id. Deleting it by that id returns it and leaves no entry under the key |
| RecordStore.DeleteByFieldMissesMisfiledRecord | database.ts:158-164 | A record filed under a key other than its `$id` is returned by deleteRecord(field, val) and stays in the pack |
| RecordStore.BucketsOfSpec | database.ts:28-50 | The scan builds one bucket per distinct field text, with unique keys. Each bucket holds exactly the `$id`s of the records with that text, in pack order |
| RecordStore.BucketsPartitionIds | database.ts:28-50 | Together the buckets hold every record's `$id` exactly once, as a multiset |
| RecordStore.RebuildIdempotent | database.ts:28-50 | Running processPack a second time changes nothing. A completed scan does not depend on the buckets held before |
| Documents.ApplyPackJsonSpec | database.ts:178-199 | parseJSON keeps record keys unique. A document's name and details replace the pack's. Each document record replaces the record under its key and all other records stay |
| Documents.PackRoundTrip | database.ts:178-214 | `new DBPack(pack.toJSON())` is the same pack: name, records in order, details |
| Documents.NamedDatabase | database.ts:250-254 | `new DBDatabase(name, path)` has that name and path, no packs, and is well formed |
| Documents.ApplyDatabaseJsonWellFormed | database.ts:292-309 | parseJSON of any document keeps pack names unique and each pack's record keys unique |
| Documents.DatabaseRoundTrip | database.ts:292-324 | `new DBDatabase(db.toJSON())` reproduces the database: name, path, pack keys in order, and every pack's name, records and details |
| Documents.CreatePackSpec | database.ts:273-279 | createPack files a fresh empty pack under the name, replacing any old one. No other pack and none of the database's own fields change. It stays well formed |
| Documents.DeletePackSpec | database.ts:285-290 | deletePack leaves nothing under the name. No other pack and none of the database's own fields change. It stays well formed |
| Documents.CreateThenDeletePack | database.ts:273-290 | Creating and then deleting a pack leaves no pack under that name and every other pack as it was |
| Documents.IndexRoundTrip | database.ts:52-73 | `new DBIndex(index.toJSON())` reproduces the index's id, field and buckets |
| Database.DBIndex.constructor | database.ts:12-26 | `new DBIndex(field)` is valid, with an `Index-` id, that field and no buckets |
| Database.DBIndex.FromJson | database.ts:20-25 | `new DBIndex(obj)` is parseJSON applied to an index with a drawn `Index-` id, no field and no buckets |
| Database.DBIndex.ProcessPack | database.ts:28-50 | The new buckets are the scan of the pack when every field value is truthy, and the old buckets otherwise. Bucket keys stay unique, and id and field are unchanged |
| Database.DBIndex.ParseJSON | database.ts:52-65 | The new index is `ApplyIndexJson(old index, obj)`, with bucket keys still unique |
| Database.DBIndex.CopyBuckets | database.ts:58-64 | The copy loop leaves the old buckets with each copied entry put in, in order; id and field unchanged |
| Database.DBPack.constructor | database.ts:76-92 | `new DBPack(name)` has that name, no records, and the clock stamp as details |
| Database.DBPack.FromDoc | database.ts:86-97 | `new DBPack(x)` for a string, an object or any other argument is the pack `DecodePackDoc` describes |
| Database.DBPack.CreateRecord | database.ts:108-132 | A failing read rethrows and leaves the records alone. Otherwise it returns the record with a kept or drawn `Rec-` id and files it under its `$id`. Name and details are unchanged |
| Database.DBPack.GetRecord | database.ts:134-152 | Returns the record under the id, or the first record whose field equals the value, else null. The pack is not changed |
| Database.DBPack.DeleteRecord | database.ts:154-176 | The result and the remaining records are exactly `Delete(old records, selector)`. Keys stay unique |
| Database.DBPack.ParseJSON | database.ts:178-199 | The new pack is `ApplyPackJson(old pack, obj)`, with keys still unique |
| Database.DBPack.CopyRecords | database.ts:182-187 | The copy loop leaves the old records with each copied entry put in, in order |
| Database.DBDatabase.Named | database.ts:244-254 | `new DBDatabase(name, path)` is `NamedDatabase(name, path)` and holds no pack objects yet |
| Database.DBDatabase.FromJson | database.ts:244-271 | `new DBDatabase(obj)` is parseJSON applied to the defaults |
| Database.DBDatabase.FromText | database.ts:255-271 | `new DBDatabase(text)` parses the text. A text that does not parse leaves the default empty database |
| Database.DBDatabase.GetPackByName | database.ts:280-284 | Gives the pack object filed under the name, whose value is the database's pack of that name; undefined exactly when there is none |
| Database.DBDatabase.CreatePack | database.ts:273-279 | A fresh empty pack object is filed under the name, and the database's value becomes `CreatePackValue` |
| Database.DBDatabase.DeletePack | database.ts:285-290 | Returns the previous `packs[name]`, which may be undefined. The name is removed, and the value becomes `DeletePackValue` |
| Database.DBDatabase.ParseJSON | database.ts:292-309 | The new value is `ApplyDatabaseJson(old value, doc)`. Every pack object filed under a key of `obj.packs` is one of the objects `added`. These are all new, and `Repr` grows by exactly them |
| Database.DBDatabase.AddPacks | database.ts:296-301 | The copy loop files `new DBPack(pack)` for each entry in order. Afterwards every pack object under a copied key is one of the new objects `added`, and `Repr` grows by exactly them |
| Database.DBDatabase.AddPack | database.ts:299 | One pack document is read into a new DBPack and filed under its key. `Repr` grows by that object alone. If the objects under keys `ks` lie outside a set `r` and the new object does too, then so do the objects under `ks + [k]` |
| Database.DBDatabase.ToJSON | database.ts:311-324 | The document built is `EncodeDatabase` of the database's value, packs in order |
| Database.CreateRecordInPack | server.ts:145-147 | `getPackByName(k).createRecord(data)` puts the record into the pack filed under `k`. Nothing else in the database changes. On a thrown error nothing changes at all |
| Query.ObjectKeys | server.ts:180-184 | `Object.keys(query)` throws TypeError exactly on null and undefined. Otherwise it lists the query's keys and values: every key of an object, the indices of a string or array, nothing for other values |
| Query.FilterRecords | server.ts:179-192 | The nested counting loop keeps, in order, exactly the records that match every listed pair |
| Query.MatchesAllIffSatisfies | server.ts:182-189 | Reaching `checks >= keys.length` is the same as `record[k] == query[k]` for every key of the query |
| Query.MatchingIsKept | server.ts:179-192 | The loop's result does not depend on the order of the keys and equals the reference definition `Kept` |
| Query.KeptSpec | server.ts:179-192 | A record is returned if and only if it is a record of the pack and satisfies the query. The output is no longer than the pack |
| Query.KeptIsSubsequence | server.ts:181-190 | The returned records come in the pack's iteration order |
| Query.KeptDistinct | server.ts:181-190 | No record is returned twice when no record of the pack occurs twice |
| Query.PackRecordsDistinct | server.ts:181 | In a pack whose keys name their records' `$id`s, no two records are the same |
| Query.KeylessQueryKeepsAll | server.ts:180-191 | A query with no keys returns every record of the pack, in order |
| Server.DbFile | server.ts:52 | The file read on Open or rebind is `String(res.db) + ".json"`. Reading `res.db` off `null` throws that error |
| Server.UnparsedFrameChangesNothing | server.ts:48-209 | A frame JSON.parse rejects is answered with the caught error on the handler's event, and Open also disconnects first. The binding is unchanged |
| Server.Resolve | server.ts:83-87 | Fails when no database is bound. A kept database is the bound one. A reloaded one was built from the file `DbFile(res)`, which loaded |
| Server.ResolveSpec | server.ts:83-87 | The rebind step fails while no database is bound. With one bound, it is kept exactly when `res.data.db == db.name`. Otherwise the database is the one loaded from `DbFile(res)`, built from `res.db` and not `res.data.db`, and the step fails exactly when that file name or the load fails. A database it yields is well formed |
| Server.OnOpen | server.ts:48-73 | Open ends with a reply on the Open event. Without a reload the binding is unchanged and the socket is disconnected first. After a reload the binding is the database loaded from `${res.db}.json` |
| Server.OnCreatePack | server.ts:79-106 | CreatePack emits exactly one reply, on Create. A database is bound afterwards exactly when one was bound before, and a reload needs a bound database |
| Server.OnDeletePack | server.ts:107-134 | DeletePack emits exactly one reply, on Create or Delete. A database is bound afterwards exactly when one was bound before, and a reload needs a bound database |
| Server.OnCreateRec | server.ts:135-164 | CreateRec emits exactly one reply, on Create. A database is bound afterwards exactly when one was bound before, and a reload needs a bound database |
| Server.OnReadRec | server.ts:165-209 | ReadRec emits exactly one reply, on Read. It changes the binding only by a reload, which needs a bound database |
| Server.OpenSpec | server.ts:48-73 | Open answers on the Open event and keeps the binding well formed. It rebinds exactly when `${res.db}.json` loads, and then binds the database loaded from it. A failure disconnects before replying. A success replies with the session's id, key, ip and the database name |
| Server.OpenReplyShaped | server.ts:56-72 | Open's success reply echoes the request's `sync.id`, and its failure reply carries only the error |
| Server.RepliesShaped | server.ts:91-208 | Every success reply carries its text, its data and the request's `sync.id`. Every failure reply carries `err.message` with no data and no sync |
| Server.CreatePackInSpec | server.ts:89-101 | On a bound database: one reply on Create. A success names a pack now filed, empty, under that name. The database stays well formed |
| Server.CreatePackSpecified | server.ts:79-106 | The whole CreatePack handler: one reply on the Create event. On success the named pack is filed empty. The binding stays well formed |
| Server.DeletePackInSpec | server.ts:117-133 | On a bound database, no pack remains under the requested name. A success goes out on the Delete event and every failure on the Create event |
| Server.DeletePackSpecified | server.ts:107-134 | The whole DeletePack handler: one reply, on Delete exactly when it succeeds and on Create otherwise. Once the name is read, nothing remains under it |
| Server.CreateRecInSpec | server.ts:145-159 | The named pack becomes the same pack with the record inserted under its `$id`, so its name, details and other records are unchanged. No other pack changes, and the database stays well formed. A success reply carries that `$id` |
| Server.CreateRecSpecified | server.ts:135-164 | The same for the whole CreateRec handler once the database resolves: the named pack gains exactly the record, and nothing else changes |
| Server.ReadReplySpec | server.ts:175-204 | On a bound database: one reply on Read. A success lists exactly the pack's records that satisfy the query, in order |
| Server.ReadRecSpecified | server.ts:165-209 | ReadRec changes only the binding. A success lists exactly the records of the named pack that satisfy the query |
| Server.CreatePackWithoutSyncStillCreates | server.ts:89-105 | A CreatePack frame without `sync` gets a failure reply, though the pack has been created |
| Sessions.Client.constructor | server.ts:35-41 | A new session has a `C-` id and the peer's address, and no database is bound |
| Sessions.Client.Rebind | server.ts:83-87 | With no database bound it fails. The bound database object is kept exactly when `res.data.db` equals its name. Otherwise a new object is bound, holding the database loaded from `DbFile(res)`, and a failure leaves `client.db` alone. id, key and ip are unchanged |
| Sessions.Client.Open | server.ts:48-73 | The actions and the new binding are those of `OnOpen` |
| Sessions.Client.CreatePack | server.ts:79-106 | The actions and the new binding are those of `OnCreatePack` |
| Sessions.Client.DeletePack | server.ts:107-134 | The actions and the new binding are those of `OnDeletePack` |
| Sessions.Client.CreateRec | server.ts:135-164 | The actions and the new binding are those of `OnCreateRec` for the id createRecord drew |
| Sessions.Client.ReadRec | server.ts:165-209 | The actions and the new binding are those of `OnReadRec` |
| Sessions.ReadPack | server.ts:175-204 | The lookup, the listing of the query's keys and the filter loop emit what `ReadReply` says |
| Sessions.AddRecord | server.ts:145-159 | The pack lookup and createRecord emit what `CreateRecIn` says, and leave the database it describes |
| Sessions.ClientTable.constructor | server.ts:30 | The registry starts empty |
| Sessions.ClientTable.Connect | server.ts:34-43 | A new connection gets a new session with a `C-` id, the peer's address and no database, registered under its id |

## Left out

- `DBDatabase.ReadDatabase` and `WriteDatabase` are file I/O. The handlers
  take the loader as the `load` parameter and the model has no writer.
  `path.resolve` with `DBFolderPath` is part of the loader: the model hands
  it the text `${res.db}.json` only.
- The socket: emitting is modelled as the list of actions a handler returns.
  The `connection` plumbing, the server bootstrap, console logging and the
  Close handler (which only logs and disconnects) are not modelled.
- Handlers interleaving across `await`, and lost updates between two
  handlers of one session, are concurrency and are not modelled.
- `Date.now()` stamps are the `stamp` parameter. The `time` field of the
  echoed `sync` is not modelled.
- JSON.stringify of replies: a reply is the `Reply` value it would stringify.
- Loose `==` between values of different types (number against string, and
  so on) is modelled as false. Two objects or arrays are never equal.
- Numbers are integers. Floating point and its text forms are not modelled.
- Object-key order for integer-like keys is not modelled: every object keeps
  insertion order. Inherited prototype keys such as `constructor` are not
  modelled either.
- Records in a pack are always objects. A `null` or primitive record in a
  hand-edited file, which makes processPack return early, is not modelled.
- An array handed to createRecord is modelled as a TypeError. JavaScript
  would set `$id` on the array.
- Database.DBDatabase.FromText: the `read` parameter abstracts JSON.parse and
  the IDatabase reading of its result. A text that parses to `null` (which
  throws in parseJSON) is modelled as one that does not parse.
- Server.CreatePackIn: an object passed as the pack name makes a pack with
  the object's string `name` but without its records or details.
- Database.DBPack.ParseJSON: a `details` object missing a stamp is modelled
  as replacing both stamps. JavaScript would store `undefined`.
- `_.clone` is value copying: the model has no aliasing between a document
  and the objects read from it.
- `randomID` is any string with the prefix. The real generator's format, and
  its chance of colliding with an id in use, are not modelled.
- `DBToken`'s constructor and accessors on data other than a path are not
  modelled, and neither is `DBDate`: it converts through `Number` and `Date`.
  One thing about `DBDate`: interface.ts line 94 tests for the `Path` token,
  not `Date`.
- The commented-out index code of DBPack is not live and is not modelled.
  `interface.ts`'s `request`, the client, and `t.ts` are not part of this
  model.
