/** Small failure-carrying datatypes shared by the modules of the model.
    A Python call that may raise is modelled by `Fallible`; one that only
    succeeds or raises, without a value, by `Outcome`. */
module Wrappers {

  datatype Option<+T> = None | Some(value: T)

  /** The outcome of a call whose value is not used: it returned, or it raised
      an exception whose `str()` is `message`. */
  datatype Outcome = Ok | Raised(message: string)

  /** The outcome of a call that returns a value or raises. */
  datatype Fallible<+T> = Value(value: T) | Raises(message: string)
}
