/**
 * JSON values as JavaScript sees them once a text has been parsed, with the
 * few built-in operations the store applies to them: truthiness, `String(x)`,
 * loose equality and property reads.
 */
module JsValues {
  import opened Common

  /** A parsed JSON value. Numbers are modelled as integers. */
  datatype Value =
    | Null
    | Bool(b: bool)
    | Num(n: int)
    | Str(s: string)
    | List(items: seq<Value>)
    | Obj(fields: map<string, Value>)

  /** A record, or any other plain object: field name to value. */
  type Fields = map<string, Value>

  /** `obj[k]` on a plain object: `None` is `undefined`. */
  function Get(r: Fields, k: string): (v: Option<Value>)
    ensures v.Some? <==> k in r
    ensures v.Some? ==> v.value == r[k]
  {
    if k in r then Some(r[k]) else None
  }

  /** JavaScript truthiness; `undefined`, `null`, `false`, `0` and `""` are falsy, objects never are. */
  predicate Truthy(o: Option<Value>) {
    match o
    case None => false
    case Some(Null) => false
    case Some(Bool(b)) => b
    case Some(Num(n)) => n != 0
    case Some(Str(s)) => s != ""
    case Some(List(_)) => true
    case Some(Obj(_)) => true
  }

  function Digit(d: int): (c: char)
    requires 0 <= d < 10
    ensures '0' <= c <= '9'
  {
    "0123456789"[d]
  }

  /** Decimal digits of a natural number. */
  function NatText(n: nat): (r: string)
    ensures |r| > 0
    ensures forall i :: 0 <= i < |r| ==> '0' <= r[i] <= '9'
  {
    if n < 10 then [Digit(n)] else NatText(n / 10) + [Digit(n % 10)]
  }

  function IntText(n: int): (r: string)
    ensures r != ""
  {
    if n < 0 then "-" + NatText(-n) else NatText(n)
  }

  /**
   * `String(v)`, which is also what a template literal and an object-key
   * conversion produce. Arrays join their elements with "," and print
   * `null` elements as the empty string.
   */
  function ToText(v: Value): (r: string)
    ensures v.Str? ==> r == v.s
    ensures v.Num? ==> r != ""
    decreases v, 1
  {
    match v
    case Null => "null"
    case Bool(b) => if b then "true" else "false"
    case Num(n) => IntText(n)
    case Str(s) => s
    case List(items) => JoinFrom(v, 0)
    case Obj(_) => "[object Object]"
  }

  /** `Array.prototype.join(",")` of the elements of `v` from index `i` on. */
  function JoinFrom(v: Value, i: nat): string
    requires v.List? && i <= |v.items|
    decreases v, 0, |v.items| - i
  {
    if i == |v.items| then ""
    else
      var item := v.items[i];
      assert item in v.items;
      var text := if item.Null? then "" else ToText(item);
      if i + 1 == |v.items| then text else text + "," + JoinFrom(v, i + 1)
  }

  /** `String(x)` of a possibly undefined value: the key a JS object stores it under. */
  function StringOf(o: Option<Value>): (r: string)
    ensures o.None? ==> r == "undefined"
    ensures o.Some? && o.value.Str? ==> r == o.value.s
  {
    match o
    case None => "undefined"
    case Some(v) => ToText(v)
  }

  /**
   * Loose equality `a == b` without type coercion: `undefined` and `null`
   * equal each other, primitives compare by type and value, and two
   * objects or arrays are never equal because every value compared here
   * was produced by its own parse or clone.
   */
  predicate LooseEq(a: Option<Value>, b: Option<Value>) {
    match (a, b)
    case (None, None) => true
    case (None, Some(Null)) => true
    case (Some(Null), None) => true
    case (Some(Null), Some(Null)) => true
    case (Some(Bool(x)), Some(Bool(y))) => x == y
    case (Some(Num(x)), Some(Num(y))) => x == y
    case (Some(Str(x)), Some(Str(y))) => x == y
    case _ => false
  }

  /**
   * The property read `o.k`: it throws on `undefined` and `null`, reads an
   * object's field, and yields `undefined` on every other value.
   */
  function Prop(o: Option<Value>, k: string): (r: Result<Option<Value>>)
    ensures r.Fail? <==> (o.None? || o.value.Null?)
    ensures r.Fail? ==> r.error == TypeError
    ensures r.Ok? && o.value.Obj? ==> r.value == Get(o.value.fields, k)
  {
    match o
    case None => Fail(TypeError)
    case Some(Null) => Fail(TypeError)
    case Some(Obj(m)) => Ok(Get(m, k))
    case Some(_) => Ok(None)
  }

  /** A read through a chain of properties, `o.k1.k2...`, stopping at the first throw. */
  function PropPath(o: Option<Value>, ks: seq<string>): Result<Option<Value>>
    decreases |ks|
  {
    if ks == [] then Ok(o)
    else
      match Prop(o, ks[0])
      case Fail(e) => Fail(e)
      case Ok(next) => PropPath(next, ks[1..])
  }
}
