/** Option and Result, the two failure-carrying wrappers used by every module. */
module Wrappers {

  datatype Option<+T> = None | Some(value: T)

  /** The settled outcome of a promise or of a network call: resolved with a value or rejected. */
  datatype Result<+T> = Success(value: T) | Failure(error: string)

  /** JavaScript truthiness of an optional string: present and not empty. */
  predicate Truthy(s: Option<string>) {
    s.Some? && s.value != ""
  }
}
