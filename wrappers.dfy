/** Option and Result, used for the nullable fields and the engine's error outcomes. */
module Wrappers {

  datatype Option<+T> = None | Some(value: T)

  /** Either a value or one of the ledger's error outcomes (the exceptions the service throws). */
  datatype Result<+T, +E> = Ok(value: T) | Err(error: E)
}
