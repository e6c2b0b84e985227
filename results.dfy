/** Outcomes shared by the survey model: Python raises where these say Err. */
module Results {

  datatype Option<+T> = None | Some(value: T)

  /** The exceptions the survey script can raise on the paths that are modelled. */
  datatype Error =
    | ArityMismatch(row: nat)  // `Response(*row)` with the wrong number of fields (TypeError)
    | ZeroDivision             // a float division whose divisor is zero (ZeroDivisionError)

  datatype Result<+T> = Ok(value: T) | Err(error: Error)
}
