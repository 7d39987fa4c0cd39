/** Failure-compatible result types shared by the model's modules. */
module Wrappers {

  /** An optional value: Rust's `Option<T>`. */
  datatype Option<+T> = None | Some(value: T)

  /** Outcome of an operation that may abort: `Fail` stands for a Rust `panic!`
      (or a failing `assert_eq!` / `unwrap`), carrying its message. */
  datatype Outcome = Pass | Fail(message: string)
}
