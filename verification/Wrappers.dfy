/** Shared result types, and how often something happened that happens at most once. */
module Wrappers {
  datatype Option<+T> = None | Some(value: T)

  /** Outcome of code that returns a value or throws `std::runtime_error`. */
  datatype Result<+T> = Ok(value: T) | Err(message: string)

  function One(b: bool): nat {
    if b then 1 else 0
  }
}
