/** How a foreign call or a fallible operation ends: JavaScript promises that either
    resolve or reject with an `Error` whose `message` is what callers read. */
module Outcomes {

  /** A call that returns nothing useful: it completes, or it throws with a message. */
  datatype Step = Done | Failed(message: string)

  /** A call that returns a value, or throws with a message. */
  datatype Result<T> = Ok(value: T) | Err(message: string)

  datatype Option<T> = None | Some(value: T)
}
