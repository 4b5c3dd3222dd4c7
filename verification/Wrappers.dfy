/** Result types shared by the models. */
module Wrappers {

  datatype Option<+T> = None | Some(value: T)

  /** How a coroutine body ends: with a value, or with an exception that left it. */
  datatype Outcome = Value(v: int) | Exn(e: int)
}
