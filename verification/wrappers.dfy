/** Failure-carrying datatypes shared by the ledger modules: a lookup that may
    find nothing (Java's `null` from `Map.get`) and an operation that may fail
    with a reason (a thrown exception). */
module Wrappers {

  /** The result of a lookup: `None` where the Java code gets `null`. */
  datatype Option<+T> = None | Some(value: T)

  /** The result of an operation that either produces a value or fails. */
  datatype Result<+T, +E> = Ok(value: T) | Err(error: E)
}
