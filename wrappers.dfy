/** Optional values and results, standing for `undefined` and for thrown errors. */
module Wrappers {

  datatype Option<+T> = None | Some(value: T)

  /** `Err` carries the message of the error the source throws. */
  datatype Result<+T> = Ok(value: T) | Err(error: string)
}
