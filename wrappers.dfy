/** Optional values and results of operations that can fail. */
module Wrappers {

  /** A value that may be absent; `None` plays the part of JavaScript's `undefined`. */
  datatype Option<+T> = None | Some(value: T)

  /** The outcome of a step that may fail; a failure carries the collaborator's error unchanged. */
  datatype Result<+T> = Ok(value: T) | Failure(error: string)
}
