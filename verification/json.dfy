/** Decoded JSON values, and the Python operations the handlers apply to
    them: subscripting, adding onto an integer total, and `str`. */
module Json {
  import opened Wrappers
  import Decimal

  /** A decoded JSON value. Booleans and fractional numbers are not part
      of the model. */
  datatype Value =
    | JNull
    | JNum(n: int)
    | JStr(s: string)
    | JArr(items: seq<Value>)
    | JObj(fields: map<string, Value>)

  /** The exceptions that abort a handler. */
  datatype Error =
    | KeyError(key: string)   // subscript of an object that lacks the key
    | NotSubscriptable        // string subscript of a value that is not an object
    | NotAnInteger            // `+=` of a value that is not a number onto an int
    | UnsupportedId           // `str()` of an array or object (its repr is not modelled)
    | NoPath                  // `None.startswith` for an event without a path
    | InvalidRange            // the store's ValidationException for a BETWEEN whose bounds are reversed
    | NotSerializable         // `json.dumps` of a number, which the store hands back as `decimal.Decimal`

  /** `v[key]`. */
  function Get(v: Value, key: string): Result<Value, Error> {
    match v
    case JObj(fields) => if key in fields then Success(fields[key]) else Failure(KeyError(key))
    case _ => Failure(NotSubscriptable)
  }

  /** `v[keys[0]][keys[1]]...`, raising at the first subscript that fails. */
  function GetPath(v: Value, keys: seq<string>): Result<Value, Error>
    decreases |keys|
  {
    if |keys| == 0 then Success(v)
    else
      var child :- Get(v, keys[0]);
      GetPath(child, keys[1..])
  }

  /** The integer `total += v` adds; anything else raises `TypeError`. */
  function AsInt(v: Value): Result<int, Error> {
    if v.JNum? then Success(v.n) else Failure(NotAnInteger)
  }

  /** `json.dumps` accepts the value as the store hands it back. The store
      returns every number as a `decimal.Decimal`, which `json.dumps`
      rejects, wherever in the value it sits. */
  predicate Dumpable(v: Value) {
    match v
    case JNum(_) => false
    case JArr(items) => forall i :: 0 <= i < |items| ==> Dumpable(items[i])
    case JObj(fields) => forall k :: k in fields ==> Dumpable(fields[k])
    case _ => true
  }

  /** `str(v)`. */
  function Str(v: Value): Result<string, Error> {
    match v
    case JNum(n) => Success(Decimal.IntToString(n))
    case JStr(s) => Success(s)
    case JNull => Success("None")
    case _ => Failure(UnsupportedId)
  }
}
