/** Plain Option and Result datatypes: a value that may be absent (a Kotlin nullable) and a computation that may
    fail (a thrown IllegalArgumentException). */
module Wrappers {

  /** A Kotlin `T?`: `None` stands for `null`. */
  datatype Option<+T> = None | Some(value: T)

  /** The outcome of a constructor or decoder that throws on bad input. */
  datatype Result<+T, +E> = Success(value: T) | Failure(error: E)
}
