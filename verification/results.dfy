/** Failure-carrying values shared by every module of the model.
    Go's `(value, error)` pairs become `Result`, a bare `error` becomes
    `Outcome`, and a nil-able pointer becomes `Option`. Errors are kept as
    their message text. */
module Results {

  datatype Option<+T> = None | Some(value: T)

  datatype Result<+T> = Ok(value: T) | Err(error: string)

  datatype Outcome = Pass | Fail(error: string)

  /** The value of a successful result, or the empty string on failure: the
      zero value a Go function returns next to a non-nil error. */
  function TextOr(r: Result<string>): (s: string)
    ensures r.Ok? ==> s == r.value
    ensures r.Err? ==> s == ""
  {
    match r
    case Ok(v) => v
    case Err(_) => ""
  }
}
