/** Failure-carrying results used where the source unwraps or panics. */
module Wrappers {
  datatype Option<+T> = None | Some(value: T)

  /** Why an operation of the core could not produce its value. */
  datatype Error =
    | WalkFailed              // a directory entry could not be read (`entry.unwrap()`)
    | Unreadable(path: string) // the content extractor failed for a file (`expect("Failed to read File")`)
    | CacheCorrupt(handle: string) // a cached handle does not hold a serialized Files value
    | BadJson(path: string)    // a JSON file of the count cache is missing or does not parse

  datatype Result<+T> = Ok(value: T) | Err(error: Error)
}
