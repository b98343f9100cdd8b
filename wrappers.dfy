/** Option and Result, used wherever the source returns None or raises. */
module Wrappers {
  datatype Option<T> = None | Some(value: T)

  /** `Failure` stands for an exception or a failed `assert` of the source. */
  datatype Result<T> = Ok(value: T) | Failure(msg: string)
  {
    predicate IsFailure() { Failure? }
  }
}
