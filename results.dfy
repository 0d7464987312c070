/** Absent values (the source's `null`) and failed operations (its exceptions). */
module Results {

  datatype Option<+T> = None | Some(value: T)

  datatype Result<+T> = Success(value: T) | Failure(error: string)
}
