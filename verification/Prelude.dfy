/** Shared result types: an optional value, and the outcome of a storage call. */
module Prelude {

  datatype Option<+T> = None | Some(value: T)

  /** The error classes of `StorageError`; the message is free text. */
  datatype StorageError =
    | NotFound(what: string)
    | Conflict(what: string)
    | InvalidInput(what: string)
    | Corruption(what: string)
    | Unsupported(what: string)
    | Unavailable(what: string)

  datatype Result<+T> = Ok(value: T) | Err(error: StorageError)
}
