/** Failure-carrying values: `None` stands for a JavaScript result that is
    not a number (NaN, undefined) or for a call that throws. */
module Wrappers {

  datatype Option<+T> = None | Some(value: T)
}
