/** Failure-carrying values for the generator: an optional value, and a
    result that is either a value or the error message of a thrown Error. */
module Results {

  datatype Option<+T> = None | Some(value: T)

  datatype Result<+T> = Ok(value: T) | Err(message: string)
}
