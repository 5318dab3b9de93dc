/** Small failure-carrying datatypes shared by the model's modules. */
module Wrappers {

  datatype Option<+T> = None | Some(value: T)

  /** The outcome of an operation that either completes or fails with a message
      (a thrown `std::runtime_error` in the engine). */
  datatype Outcome = Pass | Fail(message: string)
}
