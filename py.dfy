/** Vocabulary of the Python 2.6/2.7 runtime that the M2Crypto wrappers are written
    against: byte strings, native handles, the exceptions the wrappers raise,
    and the outcome of looking a name up on the native extension module. */
module Py {

  /** One element of a Python 2 `str` (the range of `chr`/`ord`). */
  type byte = x: int | 0 <= x < 256

  /** A pointer handed out by the native OpenSSL extension module. */
  type Handle = nat

  datatype Option<+T> = None | Some(value: T)

  /** A Python call either returns a value or raises an exception. */
  datatype Result<+T> = Success(value: T) | Failure(error: Exception)

  /** The exceptions that can escape the modelled code. */
  datatype Exception =
    | SmimeError(message: string)     // `SMIME_Error` with its message
    | AttributeError(name: string)    // missing attribute: getattr, `del`, or `x._ptr()` on an unset slot
    | ValueError(args: seq<string>)   // the exception's argument tuple
    | KeyError(key: Handle)
    | ZeroDivisionError
    | OpenSslError                    // a failure inside a collaborator loader (`EVP.load_key`, `X509.load_cert`)
    | TypeError                       // `raise` of a value that is not an exception, such as a `str`

  /** What `getattr(m2, name)` finds on the native module: no such attribute,
      an attribute bound to None, or a callable, together with what calling it
      returns. */
  datatype Attr = Missing | NoneValue | Callable(result: Handle)
}
