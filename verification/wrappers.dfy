/** Failure-carrying datatypes shared by the model.
    A Swift `Optional`/Kotlin nullable becomes `Option`; a Swift trap (`try!`, a force
    unwrap of nil, an arithmetic overflow) becomes the `Failure` side of a `Result`. */
module Wrappers {

  datatype Option<+T> = None | Some(value: T)

  datatype Result<+R, +E> = Success(value: R) | Failure(error: E)
}
