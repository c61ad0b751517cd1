/**
 * The document shapes of interface.ts (IPack, IDatabase, IIndex, IResponse)
 * as they are handed to the parseJSON methods and produced by toJSON.
 * A field guarded by `_.isString`/`_.isObject` in the reader is an `Option`:
 * `None` when it is missing or of another type.
 */
module Shapes {
  import opened Common
  import opened JsValues
  import opened Assoc

  /** `details` of a pack or database; both stamps come from the clock and are opaque here. */
  datatype Details = Details(dateCreated: int, dateModified: int)

  /** IPack */
  datatype PackJson = PackJson(name: Option<string>, records: Option<Entries<Fields>>, details: Option<Details>)

  /** What `new DBPack(x)` is handed for one entry of a database document's `packs`. */
  datatype PackDoc =
    | PackObject(doc: PackJson)   // an object: read by DBPack.parseJSON
    | PackText(text: string)      // a string: taken as the new pack's name
    | PackOther                   // anything else: the pack keeps its defaults

  /** IDatabase */
  datatype DatabaseJson = DatabaseJson(
    name: Option<string>,
    path: Option<string>,
    packs: Option<Entries<PackDoc>>,
    details: Option<Details>)

  /** A bucket of an index: the `$id` of each record with one field value (undefined when a record has none). */
  type Bucket = seq<Option<Value>>

  /** IIndex */
  datatype IndexJson = IndexJson(id: Option<string>, field: Option<string>, records: Option<Entries<Bucket>>)

  /** The `data` a successful server response carries. */
  datatype Payload =
    | PackName(name: string)
    | RecordId(recordID: Value)
    | Records(records: seq<Fields>)

  /** A response `message`: a fixed text, or the `message` of a caught error. */
  datatype Message = Text(text: string) | ErrorMessage(error: Err)

  /** The echoed synchronization token; its `time` is a clock read and is not modelled. */
  datatype Sync = Sync(id: Option<Value>)

  /** IResponse */
  datatype Response = Response(success: bool, message: Message, data: Option<Payload>, sync: Option<Sync>)
}
