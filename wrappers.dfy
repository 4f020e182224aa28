/** Option and Result, used for the absent values and rejected inputs of the portal. */
module Wrappers {

  datatype Option<+T> = None | Some(value: T)

  /** A validation outcome: the cleaned value, or the name of the offending field. */
  datatype Result<+T> = Success(value: T) | Failure(field: string)
}
