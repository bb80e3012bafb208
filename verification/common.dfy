/** Shared vocabulary: optional and failing results, and the loosely typed
    values that travel between the bot and its tabular store. */
module Common {

  /** Python's `Optional[T]`: `None` or a present value. */
  datatype Option<+T> = None | Some(value: T) {
    function GetOr(default: T): T {
      match this
      case Some(v) => v
      case None => default
    }
  }

  /** The exceptions the modelled code can raise; an operation that raises
      is aborted (the event that triggered it is dropped). */
  datatype Exception = KeyError | TypeError | IndexError | AttributeError | ValueError
    /** The store answered a request with a failure status. */
    | StoreError

  /** A computation that either produces a value or raises. */
  datatype Result<+T> = Ok(value: T) | Err(exception: Exception) {
    predicate IsFailure() {
      Err?
    }

    function PropagateFailure<U>(): Result<U>
      requires Err?
    {
      Err(exception)
    }

    function Extract(): T
      requires Ok?
    {
      value
    }
  }

  /** A JSON-like value as stored in a record's fields or in configuration. */
  datatype Value =
    | Null
    | Str(s: string)
    | Bool(b: bool)
    | Int(i: int)
    | List(items: seq<Value>)
    | Dict(entries: map<string, Value>)

  /** Python truthiness of a value. */
  predicate Truthy(v: Value) {
    match v
    case Null => false
    case Str(s) => s != ""
    case Bool(b) => b
    case Int(i) => i != 0
    case List(xs) => xs != []
    case Dict(m) => m != map[]
  }

  /** Python truthiness of an optional string. */
  predicate Present(o: Option<string>) {
    o.Some? && o.value != ""
  }

  /** How an f-string renders an optional string: `None` prints as "None". */
  function Show(o: Option<string>): string {
    match o
    case Some(s) => s
    case None => "None"
  }

  /** The stored representation of an optional string. */
  function OptStr(o: Option<string>): Value {
    match o
    case Some(s) => Str(s)
    case None => Null
  }

  /** The stored representation of an optional flag. */
  function OptBool(o: Option<bool>): Value {
    match o
    case Some(b) => Bool(b)
    case None => Null
  }
}
