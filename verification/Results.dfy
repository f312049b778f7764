/** The encoder reports errors by throwing; here a call returns its value or the error it throws. */
module Results {

  datatype Error = DomainError | InvalidArgument | LengthError | DataTooLong

  datatype Result<+T> = Ok(value: T) | Err(error: Error)
}
