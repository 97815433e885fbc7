/** Results of code that can stop abnormally. */
module Outcomes {

  /** The value a computation returns, or `Panicked` when it stops on a Rust
      `panic!`, a failed `assert!` (or a failed Python `assert`). */
  datatype Outcome<T> = Done(value: T) | Panicked

  /** The source's `Option`. */
  datatype Option<T> = None | Some(value: T)
}
