/** Outcomes shared by the ledger and the customers: Go's `error` results. */
module Status {

  datatype Option<T> = None | Some(value: T)

  /** The kinds of error the harness can run into. */
  datatype Error =
    | StoreFailed              // a begin, exec, commit or read of the store failed
    | NotAnInteger(text: string)  // strconv.Atoi rejected an account id
    | Int31nPanic              // rand.Int31n was called with a bound that is not positive

  /** A Go `error` return: nil is `Pass`. */
  datatype Outcome = Pass | Fail(error: Error)

  /** A value-or-error return, as in `(int, error)`. */
  datatype Result<T> = Ok(value: T) | Err(error: Error)
}
