/**
 * Python's "returns a value or raises an exception" shape of a call, and the
 * exception classes that the arithmetic service raises or catches.
 */
module Outcomes {

  datatype Option<+T> = None | Some(value: T)

  /** The exception classes whose handling the tools distinguish. */
  datatype Exc =
    | ValueError(msg: string)
    | TypeError(msg: string)
    | ZeroDivisionError(msg: string)
    | OverflowError(msg: string)
    | NameError(msg: string)
    | SyntaxError(msg: string)
      /** decimal.InvalidOperation, with the name of the condition it signals */
    | InvalidOperation(condition: string)
      /** httpx.HTTPError and its subclasses */
    | HttpError(msg: string)
      /** any other subclass of Exception raised by library code */
    | OtherError(kind: string, msg: string)
  {
    /** Python's `str(e)` */
    function Str(): string {
      match this
      case ValueError(m) => m
      case TypeError(m) => m
      case ZeroDivisionError(m) => m
      case OverflowError(m) => m
      case NameError(m) => m
      case SyntaxError(m) => m
      case InvalidOperation(c) => "[<class 'decimal." + c + "'>]"
      case HttpError(m) => m
      case OtherError(_, m) => m
    }
  }

  /** The result of a call: the value it returns or the exception it raises. */
  datatype Outcome<+T> = Return(value: T) | Raise(exc: Exc) {

    predicate IsFailure() {
      Raise?
    }

    function PropagateFailure<U>(): Outcome<U>
      requires Raise?
    {
      Raise(exc)
    }

    function Extract(): T
      requires Return?
    {
      value
    }
  }
}
