/** Value wrappers shared by the stores: JavaScript's `null` and the
    result of awaiting a promise that may reject. */
module Outcomes {

  /** A nullable value: `None` plays the role of JavaScript's `null`. */
  datatype Option<+T> = None | Some(value: T)

  /** What awaiting an asynchronous call yields: either the resolved value,
      or the `message` of the `Error` the promise was rejected with. */
  datatype Outcome<+T> = Returned(value: T) | Threw(message: string)
}
