// The types shared by the other modules.
module Wrappers {
  type Byte = bv8

  // The controller's name for a photo: a hash of its content.
  type PhotoId = string

  datatype Option<+T> = None | Some(value: T)

  datatype Result<+R, +E> = Success(value: R) | Failure(error: E)
}
