/** Failure-carrying result types shared by the three puzzle models.
    A `Failure` stands for an exception the original code would throw. */
module Outcomes {

  datatype Option<+T> = None | Some(value: T)

  datatype Result<+T, +E> = Success(value: T) | Failure(error: E)
}
