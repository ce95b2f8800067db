/**
 * Values read from the YAML configuration or carried in JSON payloads, the
 * exceptions the bridge can raise, and the result wrappers used to model them.
 */
module Values {

  /** A scalar YAML/JSON value. */
  datatype Value = Str(s: string) | Int(i: int) | Bool(b: bool) | Null

  datatype Option<T> = None | Some(value: T)

  /** The exceptions that escape an operation of the bridge. */
  datatype Error =
    | MissingKey(key: string)         // KeyError on a device entry of the configuration
    | NotConnected                    // attribute access on a driver handle that is still None
    | RefreshFailed                   // the driver's refresh() raised
    | MissingAttribute(name: string)  // getattr on the driver state raised AttributeError
    | JsonDecodeError                 // json.loads rejected the payload
    | NotAnObject                     // json.loads gave a value that has no items()
    | JoinTypeError                   // "/".join met a part that is not a string

  /** What a Python call does: returns a value, or raises. */
  datatype Result<T> = Ok(value: T) | Raised(error: Error)

  function DigitChar(d: nat): char
    requires d < 10
  {
    "0123456789"[d]
  }

  /** Decimal digits of a natural number, most significant first. */
  function Decimal(n: nat): (s: string)
    ensures 0 < |s|
    ensures forall i :: 0 <= i < |s| ==> '0' <= s[i] <= '9'
    decreases n
  {
    if n < 10 then [DigitChar(n)] else Decimal(n / 10) + [DigitChar(n % 10)]
  }

  /** Python's truth value of a value, which is what an if statement tests. */
  function Truthy(v: Value): bool
  {
    match v
    case Str(s) => s != ""
    case Int(i) => i != 0
    case Bool(b) => b
    case Null => false
  }

  /** Python's str() of a value, which is what an f-string inserts. */
  function Show(v: Value): string
  {
    match v
    case Str(s) => s
    case Int(i) => if i < 0 then "-" + Decimal(-i) else Decimal(i)
    case Bool(b) => if b then "True" else "False"
    case Null => "None"
  }
}
