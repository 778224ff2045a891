/** The two result shapes the sales-target actions return. */
module Outcomes {

  /** A value that may be absent (`null` in the source). */
  datatype Option<+T> = None | Some(value: T)

  /** The `{ success: true, data }` / `{ success: false, error }` objects of the write actions. */
  datatype Result<+T> = Success(data: T) | Failure(error: string)
}
