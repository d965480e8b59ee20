/** Option and Result types shared by the model, and the ways a request fails. */
module Wrappers {

  datatype Option<T> = None | Some(value: T)

  /** The failures the modelled core can raise. */
  datatype Failure =
      /** The day cells and the rate cells of one page differ in number
          (the DataFrame constructor refuses columns of unequal length). */
    | MalformedTable
      /** A date computation leaves the representable years 1..9999
          (Python's OverflowError / ValueError for dates). */
    | DateOutOfRange

  datatype Result<T> = Ok(value: T) | Err(failure: Failure)
}
