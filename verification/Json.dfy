/** JSON values as the frame codec sees them, and the library functions it relies on. */
module Json {
  import opened Wrappers
  import opened Collections
  import opened WireFormat

  const YEAR_10000_MS: nat := 253402300800000

  /** `Int` holds the numbers serde_json keeps as integers; every other number is `Float`. */
  datatype Value =
    | Null
    | Bool(flag: bool)
    | Int(n: int)
    | Float(repr: string)
    | Str(text: string)
    | Array(items: seq<Value>)
    | Object(members: map<string, Value>)
  {
    function Get(key: string): Option<Value> {
      if Object? && key in members then Some(members[key]) else None
    }

    function GetString(key: string): Option<string> {
      match Get(key)
      case Some(Str(s)) => Some(s)
      case _ => None
    }

    function GetBool(key: string): Option<bool> {
      match Get(key)
      case Some(Bool(b)) => Some(b)
      case _ => None
    }

    function GetU64(key: string): (r: Option<nat>)
      ensures r.Some? ==> r.value < U64
    {
      match Get(key)
      case Some(Int(n)) => if 0 <= n < U64 then Some(n) else None
      case _ => None
    }

    /** The elements of an array member; a member that is not an array has none. */
    function GetItems(key: string): seq<Value> {
      match Get(key)
      case Some(Array(items)) => items
      case _ => []
    }
  }

  function Strings(items: seq<Value>): seq<string> {
    if items == [] then []
    else (if items[0].Str? then [items[0].text] else []) + Strings(items[1..])
  }

  /**
   The libraries the codec calls, kept as parameters: UTF-8, serde_json, base64 and RFC 3339.
   `display` is the text serde_json gives a value that is not a string.
   */
  datatype Library = Library(
    utf8: string -> Bytes,
    fromUtf8: Bytes -> Result<string>,
    toJson: Value -> Bytes,
    fromJson: Bytes -> Result<Value>,
    display: Value -> string,
    base64: Bytes -> string,
    fromBase64: string -> Result<Bytes>,
    rfc3339: nat -> string,
    millis: string -> nat)
  {
    /**
     What those libraries promise: the UTF-8 and JSON readers undo their writers, and the strict
     base64 reader accepts only what its writer produces.
     */
    ghost predicate Lawful() {
      && (forall s :: fromUtf8(utf8(s)) == Ok(s))
      && (forall v :: fromJson(toJson(v)) == Ok(v))
      && (forall t :: fromBase64(t).Ok? ==> base64(fromBase64(t).value) == t)
    }

    /** JSON is written as UTF-8 text. */
    ghost predicate Textual() {
      forall v :: fromUtf8(toJson(v)).Ok? && utf8(fromUtf8(toJson(v)).value) == toJson(v)
    }

    /** Reading an RFC 3339 time undoes writing it, up to the year 9999, the last that the format has. */
    ghost predicate Timely() {
      forall n: nat :: n < YEAR_10000_MS ==> millis(rfc3339(n)) == n
    }

    function TextOf(v: Value): string {
      if v.Str? then v.text else display(v)
    }
  }
}
