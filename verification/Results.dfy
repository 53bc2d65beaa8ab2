/** The error classes the modelled operations return. */
module Results {
  datatype Error =
    | ErrInvalidValue
    | ErrInvalidGraph
    | ErrInvalidReport
    | ErrInvalidInput
    | ErrCannotConverge

  datatype Result<+T> = Ok(value: T) | Err(error: Error)

  datatype Outcome = Done | Refused(error: Error)

  datatype Option<+T> = None | Some(value: T)
}
