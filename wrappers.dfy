/** Helper datatypes shared by the other modules. */
module Wrappers {

  /** A value that may be missing: a lookup that found nothing, an unset variable. */
  datatype Option<+T> = None | Some(value: T)

  /** A Go `error` return: `Pass` is a nil error, `Fail` carries the error's text. */
  datatype Outcome = Pass | Fail(error: string)
}
