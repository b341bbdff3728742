/** Option and Result values, the model's stand-in for Python's None and exceptions. */
module Wrappers {

  datatype Option<T> = None | Some(value: T)
  {
    function GetOr(default: T): T
    {
      match this
      case Some(v) => v
      case None => default
    }
  }

  /** The Python exception classes the core can raise. */
  datatype ErrorKind =
    | ValueError
    | TypeError
    | IndexError
    | KeyError
    | AttributeError
    | RuntimeError
    | JSONDecodeError
    | FileNotFoundError
    | NotADirectoryError
    | OtherError(name: string)

  /** A raised exception: its class and its message. */
  datatype Exception = Exception(kind: ErrorKind, msg: string)

  datatype Result<T> = Ok(value: T) | Err(error: Exception)
  {
    predicate IsOk() { Ok? }
  }

  /** The class name Python prints for an exception (`type(e).__name__`). */
  function KindName(k: ErrorKind): string
  {
    match k
    case ValueError => "ValueError"
    case TypeError => "TypeError"
    case IndexError => "IndexError"
    case KeyError => "KeyError"
    case AttributeError => "AttributeError"
    case RuntimeError => "RuntimeError"
    case JSONDecodeError => "JSONDecodeError"
    case FileNotFoundError => "FileNotFoundError"
    case NotADirectoryError => "NotADirectoryError"
    case OtherError(n) => n
  }
}
