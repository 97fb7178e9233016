/**
 The part of the JavaScript runtime that the two wrapper types can observe:
 values that may be `null` or `undefined`, how a call ends (by returning or by
 throwing), and `Error` objects, of which only the message matters here.
 */
module JsRuntime {

  /** A JavaScript value whose static type is `T | null | undefined`. */
  datatype Nullable<T> = Null | Undefined | Defined(value: T) {

    /** `x === undefined || x === null`, which is also what `x ?? y` tests. */
    predicate IsAbsent() {
      Null? || Undefined?
    }
  }

  /** How a call ended: it returned a value or it threw one. */
  datatype Completion<T, E> = Returned(value: T) | Threw(thrown: E)

  /** A JavaScript `Error` object, identified by its message. */
  datatype Error = Error(message: string)
}
