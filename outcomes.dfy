/** Result shapes shared by the model.
    - Option<T> stands for Rust's Option<T>.
    - Outcome<T> says whether a Rust call returns its value or panics
      (an `expect` or `unwrap` on a None); a panic is not a recoverable
      error in the crate, but the model keeps it visible as a result. */
module Outcomes {

  datatype Option<+T> = None | Some(value: T)

  datatype Outcome<+T> = Returns(value: T) | Panics
}
