/** The exceptions the bot's cycle can raise, as tags carrying what Python's
    `str()` of the exception shows, and a result type for the steps that may
    raise one. */
module Errors {
  import opened Json

  datatype Error =
    /** `raise KeyError('...')`: `str()` shows the argument in quotes. */
    | KeyError(arg: string)
    /** `d[0]` on a dict without an integer key 0: `str()` shows the bare key. */
    | IndexKeyError(index: int)
    | TypeError(message: string)
    | IndexError(message: string)
    | AttributeError(message: string)
    /** An exception raised by the status API client, with its message. */
    | ApiError(message: string)

  datatype Result<T> = Ok(value: T) | Err(error: Error)

  /** What `f'{error}'` produces for the exception. */
  function Text(e: Error): string {
    match e
    case KeyError(arg) => "'" + arg + "'"
    case IndexKeyError(index) => IntToString(index)
    case TypeError(message) => message
    case IndexError(message) => message
    case AttributeError(message) => message
    case ApiError(message) => message
  }

  /** The error Python raises for `v.get(...)` on a value that is not a dict. */
  function NoGet(v: Value): (e: Error)
    requires !v.Obj?
    ensures e.AttributeError?
  {
    AttributeError("'" + TypeName(v) + "' object has no attribute 'get'")
  }
}
