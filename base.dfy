/** Values shared by every part of the Graviex adapter model. */
module Base {

  /** A field that the exchange (or the caller) may leave out: Python's `None`. */
  datatype Option<+T> = None | Some(value: T)

  /** The Python exceptions that the adapter raises by accident rather than by design:
      a missing dictionary key, `None` used in arithmetic or as a string, a short list. */
  datatype PyError =
    | KeyError(key: string)
    | TypeError(reason: string)
    | AttributeError(reason: string)
    | IndexError(index: nat)

  /** The outcome of an adapter operation that may raise one of the errors above. */
  datatype Result<+T> = Ok(value: T) | Err(error: PyError)

  /** A value held in a request parameter dictionary. */
  datatype Value = Str(s: string) | Int(i: int) | Num(x: real)

  /** `x if x is not None else d`, the defaulting idiom used for `limit`. */
  function OrElse<T>(o: Option<T>, d: T): T
  {
    match o
    case Some(v) => v
    case None => d
  }
}
